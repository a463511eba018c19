/** The cleaning pass over the scraped hotel table: rows missing a name or a
    link are dropped, repeated (name, address) pairs keep their first row,
    text columns are stripped, reviews and ratings become numbers, prices
    are normalised and empty optional columns read "N/A". */
module CleanHotels {
  import opened Wrappers
  import opened Values
  import opened Text

  /** A column's dtype as the CSV reader infers it: `object` (text, with NaN
      for empty cells) or numeric (numbers, with NaN for empty cells). */
  datatype Kind = TextKind | NumericKind

  /** A data frame: its columns in order, each column's dtype, and its rows,
      each holding one cell per column (`Null` is NaN). */
  datatype Frame = Frame(columns: seq<string>, kinds: map<string, Kind>, rows: seq<Record>)

  /** What the CSV reader guarantees of the frame it returns. */
  predicate WellFormed(f: Frame)
  {
    && (forall i, j :: 0 <= i < j < |f.columns| ==> f.columns[i] != f.columns[j])
    && f.kinds.Keys == (set c | c in f.columns)
    && (forall r :: r in f.rows ==> r.Keys == f.kinds.Keys)
    && (forall r, c :: r in f.rows && c in r ==> Typed(f.kinds[c], r[c]))
  }

  predicate Typed(k: Kind, v: Value)
  {
    if k == TextKind then !v.Num? else !v.Str?
  }

  function KindOf(kinds: map<string, Kind>, c: string): Kind
  {
    if c in kinds then kinds[c] else NumericKind
  }

  const Rating := "Rating"
  const Reviews := "Reviews"
  const Price := "Price (per night)"
  const Optional: seq<string> := ["Room Fees", "Exclusions", "Certified"]

  // ----- Dropping rows without a name or a link -----

  predicate HasCore(r: Record)
  {
    Get(r, "Name") != Null && Get(r, "Link") != Null
  }

  /** `dropna(subset=["Name", "Link"])`: exactly the rows with both cells. */
  function DropMissing(rows: seq<Record>): (out: seq<Record>)
    ensures |out| <= |rows|
    ensures forall r :: r in out <==> r in rows && HasCore(r)
  {
    if |rows| == 0 then []
    else
      var last := rows[|rows| - 1];
      DropMissing(rows[..|rows| - 1]) + (if HasCore(last) then [last] else [])
  }

  /** Dropping rows keeps the order of the rest. */
  lemma {:induction false} DropMissingAppend(a: seq<Record>, b: seq<Record>)
    ensures DropMissing(a + b) == DropMissing(a) + DropMissing(b)
    decreases |b|
  {
    if |b| == 0 {
      assert a + b == a;
    } else {
      var b' := b[..|b| - 1];
      assert (a + b)[..|a + b| - 1] == a + b';
      DropMissingAppend(a, b');
    }
  }

  // ----- Dropping repeated (Name, Address) pairs -----

  function Key(r: Record): (Value, Value)
  {
    (Get(r, "Name"), Get(r, "Address"))
  }

  function KeysOf(rows: seq<Record>): set<(Value, Value)>
  {
    set r | r in rows :: Key(r)
  }

  /** `drop_duplicates(subset=["Name", "Address"])`: a row is kept when no
      earlier row has its key. */
  function Dedup(rows: seq<Record>): (r: seq<Record>)
    ensures |r| <= |rows|
  {
    if |rows| == 0 then []
    else
      var init := rows[..|rows| - 1];
      var last := rows[|rows| - 1];
      if Key(last) in KeysOf(init) then Dedup(init) else Dedup(init) + [last]
  }

  /** The kept rows come from the input, cover every key, and no two of them
      share a key. */
  lemma {:induction false} DedupFacts(rows: seq<Record>)
    ensures forall r :: r in Dedup(rows) ==> r in rows
    ensures KeysOf(Dedup(rows)) == KeysOf(rows)
    ensures forall i, j :: 0 <= i < j < |Dedup(rows)| ==> Key(Dedup(rows)[i]) != Key(Dedup(rows)[j])
  {
    if |rows| > 0 {
      var init := rows[..|rows| - 1];
      var last := rows[|rows| - 1];
      DedupFacts(init);
      var d := Dedup(init);
      assert forall r :: r in init ==> r in rows;
      assert KeysOf(rows) == KeysOf(init) + {Key(last)} by {
        assert forall r :: r in rows <==> r in init || r == last;
      }
      if Key(last) !in KeysOf(init) {
        var out := d + [last];
        assert KeysOf(out) == KeysOf(d) + {Key(last)} by {
          assert forall r :: r in out <==> r in d || r == last;
        }
        forall i | 0 <= i < |d| ensures Key(out[i]) != Key(last) {
          assert out[i] in d;
        }
      }
    }
  }

  /** Later rows never disturb the rows kept so far: the result on a prefix
      is a prefix of the result, so the kept rows stay in input order. */
  lemma {:induction false} DedupPrefix(a: seq<Record>, b: seq<Record>)
    ensures Dedup(a) <= Dedup(a + b)
    decreases |b|
  {
    if |b| == 0 {
      assert a + b == a;
    } else {
      var b' := b[..|b| - 1];
      assert (a + b)[..|a + b| - 1] == a + b';
      DedupPrefix(a, b');
    }
  }

  /** A row whose key no earlier row has is kept, whatever follows it. */
  lemma DedupKeepsFirst(a: seq<Record>, r: Record, b: seq<Record>)
    requires Key(r) !in KeysOf(a)
    ensures r in Dedup(a + [r] + b)
  {
    var pre := a + [r];
    assert pre[..|a|] == a;
    var d := Dedup(pre);
    assert d == Dedup(a) + [r];
    var full := Dedup(pre + b);
    DedupPrefix(pre, b);
    assert full[|d| - 1] == r;
  }

  /** A row whose key an earlier row has adds nothing. */
  lemma DedupSkipsRepeat(a: seq<Record>, r: Record)
    requires Key(r) in KeysOf(a)
    ensures Dedup(a + [r]) == Dedup(a)
  {
    assert (a + [r])[..|a|] == a;
  }

  // ----- Cell transformations -----

  /** `astype(str).str.strip()` on one cell of a text column: NaN becomes
      the string "nan". */
  function StripCell(v: Value): (w: Value)
    ensures w.Str?
    ensures v.Str? ==> w == Str(Strip(v.s))
    ensures v.Null? ==> w == Str("nan")
  {
    match v
    case Null => Str("nan")
    case Str(s) => Str(Strip(s))
    case Num(_) => Str("nan")
  }

  /** `pd.to_numeric(errors="coerce")` on one cell. */
  function NumericCell(v: Value): (w: Value)
    ensures !w.Str?
  {
    match v
    case Str(s) => (match ParseFloat(s) case Some(x) => Num(x) case None => Null)
    case _ => v
  }

  /** The review text with " reviews" (in any case) and every comma removed. */
  function ReviewsText(s: string): (r: string)
    ensures ',' !in r
  {
    ReplaceCharIsWithout(ReplaceAllIgnoreCase(s, " reviews", ""), ',');
    ReplaceAll(ReplaceAllIgnoreCase(s, " reviews", ""), ",", "")
  }

  /** The review cell: the string steps leave non-strings as NaN. */
  function ReviewsCell(v: Value): (w: Value)
    ensures !w.Str?
  {
    match v
    case Str(s) => NumericCell(Str(ReviewsText(s)))
    case _ => Null
  }

  /** The price text: "USD" becomes "$", then "USD " becomes "$", then the
      result is stripped. */
  function PriceText(s: string): (r: string)
    ensures Strip(r) == r
  {
    StripIdempotent(ReplaceAll(ReplaceAll(s, "USD", "$"), "USD ", "$"));
    Strip(ReplaceAll(ReplaceAll(s, "USD", "$"), "USD ", "$"))
  }

  function PriceCell(v: Value): (w: Value)
    ensures v.Str? <==> w.Str?
    ensures w.Str? ==> Strip(w.s) == w.s
  {
    match v
    case Str(s) => Str(PriceText(s))
    case _ => Null
  }

  /** `replace("", "N/A").fillna("N/A")` on one cell. */
  function FillCell(v: Value): (w: Value)
    ensures w != Null && w != Str("")
    ensures v != Null && v != Str("") ==> w == v
  {
    if v == Null || v == Str("") then Str("N/A") else v
  }

  /** A cell after the strip loop. */
  function Stripped(k: Kind, v: Value): Value
  {
    if k == TextKind then StripCell(v) else v
  }

  /** What cleaning makes of the cell of column `c`. */
  function CleanCell(k: Kind, c: string, v: Value): Value
  {
    var s := Stripped(k, v);
    if c == Rating then NumericCell(s)
    else if c == Reviews then ReviewsCell(s)
    else if c == Price then PriceCell(s)
    else if c in Optional then FillCell(s)
    else s
  }

  /** `out` is `row` cleaned, column by column. */
  predicate CleanedRow(kinds: map<string, Kind>, row: Record, out: Record)
  {
    out.Keys == row.Keys && forall c :: c in row ==> out[c] == CleanCell(KindOf(kinds, c), c, row[c])
  }

  /** The columns cleaning reads, and the dtypes its string steps need. */
  predicate Usable(f: Frame)
  {
    && "Name" in f.kinds && "Link" in f.kinds && "Address" in f.kinds
    && Rating in f.kinds && Reviews in f.kinds && Price in f.kinds
    && f.kinds[Reviews] == TextKind && f.kinds[Price] == TextKind
  }

  /** `df[col] = f(df[col])` on the rows. */
  function MapColumn(rows: seq<Record>, col: string, g: Value -> Value): (out: seq<Record>)
    ensures |out| == |rows|
    ensures forall i :: 0 <= i < |rows| ==> out[i].Keys == rows[i].Keys
    ensures forall i, c :: 0 <= i < |rows| && c in rows[i] ==> out[i][c] == if c == col then g(rows[i][c]) else rows[i][c]
  {
    seq(|rows|, i requires 0 <= i < |rows| => if col in rows[i] then rows[i][col := g(rows[i][col])] else rows[i])
  }

  /** A loop over `cols` applying `g` to every column that is in `chosen`. */
  method MapColumns(rows: seq<Record>, cols: seq<string>, chosen: set<string>, g: Value -> Value) returns (out: seq<Record>)
    requires forall i, j :: 0 <= i < j < |cols| ==> cols[i] != cols[j]
    ensures |out| == |rows|
    ensures forall i :: 0 <= i < |rows| ==> out[i].Keys == rows[i].Keys
    ensures forall i, c :: 0 <= i < |rows| && c in rows[i] ==>
              out[i][c] == if c in cols && c in chosen then g(rows[i][c]) else rows[i][c]
  {
    out := rows;
    var j := 0;
    while j < |cols|
      invariant 0 <= j <= |cols|
      invariant |out| == |rows|
      invariant forall i :: 0 <= i < |rows| ==> out[i].Keys == rows[i].Keys
      invariant forall i, c :: 0 <= i < |rows| && c in rows[i] ==>
                  out[i][c] == if c in cols[..j] && c in chosen then g(rows[i][c]) else rows[i][c]
    {
      var col := cols[j];
      assert cols[..j + 1] == cols[..j] + [col];
      assert col !in cols[..j];
      if col in chosen {
        out := MapColumn(out, col, g);
      }
      j := j + 1;
    }
    assert cols[..|cols|] == cols;
  }

  function TextColumns(kinds: map<string, Kind>): set<string>
  {
    set c | c in kinds && kinds[c] == TextKind
  }

  lemma OptionalDistinct()
    ensures forall i, j :: 0 <= i < j < |Optional| ==> Optional[i] != Optional[j]
  {
  }

  /** The stages of the pass, one cell at a time, make up `CleanCell`. */
  lemma CleanCellStages(k: Kind, c: string, v: Value, s: Value, conv: Value, out: Value)
    requires s == Stripped(k, v)
    requires conv == if c == Price then PriceCell(if c == Reviews then ReviewsCell(if c == Rating then NumericCell(s) else s)
                                                  else if c == Rating then NumericCell(s) else s)
                     else if c == Reviews then ReviewsCell(if c == Rating then NumericCell(s) else s)
                     else if c == Rating then NumericCell(s) else s
    requires out == if c in Optional then FillCell(conv) else conv
    ensures out == CleanCell(k, c, v)
  {
    if c in Optional {
      assert c != Rating && c != Reviews && c != Price;
    }
  }

  /** The cleaning pass, without the file reading and writing. A column it
      reads that is missing is the `KeyError` pandas raises; a reviews or
      price column that is not text is the error the `.str` accessor
      raises. */
  method CleanHotelData(f: Frame) returns (r: Result<seq<Record>>)
    requires WellFormed(f)
    ensures r.Ok? <==> Usable(f)
    ensures r.Ok? ==> var kept := Dedup(DropMissing(f.rows));
                      |r.value| == |kept| && forall i :: 0 <= i < |kept| ==> CleanedRow(f.kinds, kept[i], r.value[i])
  {
    if "Name" !in f.kinds || "Link" !in f.kinds {
      return Err("KeyError: Name/Link");
    }
    var rows := DropMissing(f.rows);
    if "Address" !in f.kinds {
      return Err("KeyError: Address");
    }
    rows := Dedup(rows);
    DedupFacts(DropMissing(f.rows));
    ghost var kept := rows;
    rows := MapColumns(rows, f.columns, TextColumns(f.kinds), StripCell);
    ghost var stripped := rows;
    if Rating !in f.kinds {
      return Err("KeyError: Rating");
    }
    rows := MapColumn(rows, Rating, NumericCell);
    if Reviews !in f.kinds || f.kinds[Reviews] != TextKind {
      return Err("Reviews: can only use .str accessor with string values");
    }
    rows := MapColumn(rows, Reviews, ReviewsCell);
    if Price !in f.kinds || f.kinds[Price] != TextKind {
      return Err("Price (per night): can only use .str accessor with string values");
    }
    rows := MapColumn(rows, Price, PriceCell);
    ghost var converted := rows;
    OptionalDistinct();
    rows := MapColumns(rows, Optional, f.kinds.Keys, FillCell);
    forall i | 0 <= i < |kept|
      ensures CleanedRow(f.kinds, kept[i], rows[i])
    {
      assert kept[i] in f.rows;
      forall c | c in kept[i]
        ensures rows[i][c] == CleanCell(KindOf(f.kinds, c), c, kept[i][c])
      {
        assert c in f.columns;
        assert c in TextColumns(f.kinds) <==> KindOf(f.kinds, c) == TextKind;
        assert stripped[i][c] == Stripped(KindOf(f.kinds, c), kept[i][c]);
        assert rows[i][c] == if c in Optional then FillCell(converted[i][c]) else converted[i][c];
        CleanCellStages(KindOf(f.kinds, c), c, kept[i][c], stripped[i][c], converted[i][c], rows[i][c]);
      }
    }
    return Ok(rows);
  }

  // ----- What the cleaned rows satisfy -----

  /** A kept row still has its name and link. */
  lemma CleanKeepsCore(kinds: map<string, Kind>, row: Record, out: Record)
    requires HasCore(row) && CleanedRow(kinds, row, out)
    ensures Get(out, "Name") != Null && Get(out, "Link") != Null
  {
  }

  /** Every plain text cell comes out stripped. */
  lemma CleanStripsText(kinds: map<string, Kind>, row: Record, out: Record, c: string)
    requires CleanedRow(kinds, row, out) && c in row && KindOf(kinds, c) == TextKind
    requires c != Rating && c != Reviews && c != Price && c !in Optional
    ensures out[c].Str? && Strip(out[c].s) == out[c].s
  {
    match row[c]
    case Str(s) => StripIdempotent(s);
    case _ =>
      assert out[c] == Str("nan");
      StripUnchanged("nan");
  }

  /** An optional column never comes out empty or missing. */
  lemma CleanFillsOptional(kinds: map<string, Kind>, row: Record, out: Record, c: string)
    requires CleanedRow(kinds, row, out) && c in row && c in Optional
    ensures out[c] != Null && out[c] != Str("")
  {
  }

  /** A missing cell of a text optional column reads "nan", not "N/A":
      the strip step has already turned NaN into a string. */
  lemma MissingTextIsNan(c: string)
    requires c in Optional
    ensures CleanCell(TextKind, c, Null) == Str("nan")
  {
    assert c != Rating && c != Reviews && c != Price;
  }

  /** A blank optional cell reads "N/A". */
  lemma BlankOptionalIsNA(k: Kind, c: string, s: string)
    requires c in Optional && AllSpace(s) && Typed(k, Str(s))
    ensures CleanCell(k, c, Str(s)) == Str("N/A")
  {
    assert c != Rating && c != Reviews && c != Price;
    assert Strip(s) == [];
  }

  /** A review count as listings print it: digits with grouping commas. */
  predicate GroupedDigits(s: string)
  {
    forall i :: 0 <= i < |s| ==> IsDigit(s[i]) || s[i] == ','
  }

  /** The reviews count: digits, possibly grouped by commas, followed by
      " reviews" in any letter case, read as the number the digits denote
      once the commas are gone. */
  lemma ReviewsOfCount(ds: string, tag: string)
    requires GroupedDigits(ds) && Without(ds, ',') != []
    requires |tag| == |" reviews"| && StartsIgnoreCase(tag, " reviews")
    ensures AllDigits(Without(ds, ','))
    ensures ReviewsCell(Str(ds + tag)) == Num(DigitsValue(Without(ds, ',')) as real)
  {
    ReviewsTextOfCount(ds, tag);
    WithoutCommas(ds);
    NumericOfDigits(Without(ds, ','));
  }

  /** "1,234 reviews" reads as 1234. */
  lemma ReviewsExample(s: string)
    requires s == "1,234 reviews"
    ensures ReviewsCell(Str(s)) == Num(1234.0)
  {
    var ds, tag := s[..5], s[5..];
    assert ds == "1,234" && tag == " reviews" && ds + tag == s;
    GroupedExample(ds);
    assert StartsIgnoreCase(tag, " reviews");
    ReviewsOfCount(ds, tag);
  }

  /** The count part of the example: one grouping comma, four digits. */
  lemma GroupedExample(ds: string)
    requires ds == "1,234"
    ensures GroupedDigits(ds) && Without(ds, ',') == "1234"
    ensures AllDigits(Without(ds, ',')) && DigitsValue(Without(ds, ',')) == 1234
  {
    CommaExample(ds);
    DigitsExample(Without(ds, ','));
  }

  lemma CommaExample(ds: string)
    requires ds == "1,234"
    ensures Without(ds, ',') == "1234"
  {
    var x, c, y := ds[..1], ds[1..2], ds[2..];
    assert ds == (x + c) + y;
    WithoutAppend(x + c, y, ',');
    WithoutAppend(x, c, ',');
    WithoutAbsent(x, ',');
    WithoutAbsent(y, ',');
    assert c == [','] && c[1..] == [];
  }

  lemma DigitsExample(d: string)
    requires d == "1234"
    ensures AllDigits(d) && DigitsValue(d) == 1234
  {
    assert DigitsValue(d[..1]) == 1 by { assert d[..1][..0] == []; }
    assert DigitsValue(d[..2]) == 12 by { assert d[..2][..1] == d[..1]; }
    assert DigitsValue(d[..3]) == 123 by { assert d[..3][..2] == d[..2]; }
    assert d[..4] == d && d[..4][..3] == d[..3];
  }

  /** A run of digits converts to the number it denotes. */
  lemma NumericOfDigits(ds: string)
    requires ds != [] && AllDigits(ds)
    ensures NumericCell(Str(ds)) == Num(DigitsValue(ds) as real)
  {
    ParseInteger(ds);
  }

  /** The string steps on a count: the tag goes, then the commas. */
  lemma ReviewsTextOfCount(ds: string, tag: string)
    requires GroupedDigits(ds)
    requires |tag| == |" reviews"| && StartsIgnoreCase(tag, " reviews")
    ensures ReviewsText(ds + tag) == Without(ds, ',')
  {
    IgnoreCaseSkipsCount(ds, tag, " reviews", "");
    IgnoreCaseWhole(tag, " reviews", "");
    assert ds + "" == ds;
    ReplaceCharIsWithout(ds, ',');
  }

  /** Without its commas a grouped count is all digits. */
  lemma {:induction false} WithoutCommas(ds: string)
    requires GroupedDigits(ds)
    ensures AllDigits(Without(ds, ','))
  {
    if ds != [] {
      WithoutCommas(ds[1..]);
    }
  }

  /** Case-insensitive replacement of a pattern that starts with neither a
      digit nor a comma (in any case) passes over a grouped count. */
  lemma {:induction false} IgnoreCaseSkipsCount(ds: string, rest: string, pat: string, rep: string)
    requires GroupedDigits(ds) && pat != [] && !IsDigit(LowerAscii(pat[0])) && LowerAscii(pat[0]) != ','
    ensures ReplaceAllIgnoreCase(ds + rest, pat, rep) == ds + ReplaceAllIgnoreCase(rest, pat, rep)
    decreases |ds|
  {
    if |ds| > 0 {
      var s := ds + rest;
      var t := ReplaceAllIgnoreCase(rest, pat, rep);
      assert s[0] == ds[0];
      IgnoreCasePastChar(s, pat, rep);
      assert s[1..] == ds[1..] + rest;
      IgnoreCaseSkipsCount(ds[1..], rest, pat, rep);
      assert [s[0]] + (ds[1..] + t) == ds + t;
    } else {
      assert ds + rest == rest;
    }
  }

  /** Replacing a pattern that starts with a non-digit leaves digits alone. */
  lemma {:induction false} ReplaceKeepsDigits(ds: string, pat: string, rep: string)
    requires AllDigits(ds) && pat != [] && !IsDigit(pat[0])
    ensures ReplaceAll(ds, pat, rep) == ds
    decreases |ds|
  {
    if |ds| >= |pat| {
      assert ds[..|pat|][0] == ds[0];
      ReplaceKeepsDigits(ds[1..], pat, rep);
      assert ds == [ds[0]] + ds[1..];
    }
  }

  /** An occurrence of `p + q` is an occurrence of `p`. */
  lemma ContainsPrefixOf(t: string, p: string, q: string)
    requires Contains(t, p + q)
    ensures Contains(t, p)
  {
    var i: nat :| OccursAt(t, p + q, i);
    assert t[i..i + |p|] == t[i..i + |p + q|][..|p|];
    assert OccursAt(t, p, i);
  }

  /** The second price replacement never changes anything: after the first,
      no "USD" is left, so no "USD " is either. */
  lemma PriceSecondReplaceInert(s: string)
    ensures PriceText(s) == Strip(ReplaceAll(s, "USD", "$"))
  {
    var t := ReplaceAll(s, "USD", "$");
    ReplaceLeavesNone(s, "USD", "$");
    assert "USD " == "USD" + " ";
    if Contains(t, "USD ") {
      ContainsPrefixOf(t, "USD", " ");
    }
  }

  /** "USD " before an amount becomes "$ ", keeping the space. */
  lemma PriceKeepsSpace(amount: string)
    requires amount != [] && AllDigits(amount)
    ensures PriceText("USD" + (" " + amount)) == "$" + (" " + amount)
  {
    PriceSecondReplaceInert("USD" + (" " + amount));
    DollarForUsd(amount);
    DollarStripped(amount);
  }

  lemma DollarForUsd(amount: string)
    requires AllDigits(amount)
    ensures ReplaceAll("USD" + (" " + amount), "USD", "$") == "$" + (" " + amount)
  {
    ReplaceAtHead("USD", " " + amount, "$");
    assert " " + amount == [' '] + amount;
    ReplacePastChar(' ', amount, "USD", "$");
    ReplaceKeepsDigits(amount, "USD", "$");
  }

  lemma DollarStripped(amount: string)
    requires amount != [] && AllDigits(amount)
    ensures Strip("$" + (" " + amount)) == "$" + (" " + amount)
  {
    var t := "$" + (" " + amount);
    assert t[|t| - 1] == amount[|amount| - 1];
    DigitNotSpace(amount[|amount| - 1]);
    StripUnchanged(t);
  }

}
