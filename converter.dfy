/** The open-image annotation converter: per-split size maps, convert_row,
    the label filter of convert_annotations, and the grouping of the
    converted rows. */
module Converter {
  import opened Results
  import opened Geometry
  import opened Grouping

  /** Image file name to (width, height). */
  type SizeMap = map<string, (int, int)>

  /** The three per-split size maps of the script. */
  datatype SizeIndexes = SizeIndexes(train: SizeMap, validation: SizeMap, test: SizeMap)

  /** label_name_to_class_id_dict: only vehicle registration plates. */
  const LabelNameToClassId: map<string, int> := map["/m/01jfm_" := 0]

  /** switcher: the size map of a split; None (after printing an error)
      for any other mode. */
  function Switcher(mode: string, sizes: SizeIndexes): (r: Option<SizeMap>)
    ensures r.Some? <==> mode in {"train", "validation", "test"}
    ensures mode == "train" ==> r == Some(sizes.train)
    ensures mode == "validation" ==> r == Some(sizes.validation)
    ensures mode == "test" ==> r == Some(sizes.test)
  {
    if mode == "train" then Some(sizes.train)
    else if mode == "validation" then Some(sizes.validation)
    else if mode == "test" then Some(sizes.test)
    else None
  }

  /** The size used for an image: the stored one, or (1, 1) for an image
      that is not in the map. */
  function ImageSize(sizes: SizeMap, filename: string): (r: (int, int))
    ensures filename in sizes ==> r == sizes[filename]
    ensures filename !in sizes ==> r == (1, 1)
  {
    if filename in sizes then sizes[filename] else (1, 1)
  }

  /** int(x) of a float: truncation toward zero. */
  function Trunc(x: real): (r: int)
    ensures x >= 0.0 ==> r as real <= x < r as real + 1.0
    ensures x < 0.0 ==> r as real - 1.0 < x <= r as real
  {
    if x >= 0.0 then x.Floor else -((-x).Floor)
  }

  /** A normalized coordinate scaled to pixels, as '%d' % (v * dim). A
      coordinate in [0, 1] lands in [0, dim]. */
  function Denorm(v: real, dim: int): (r: int)
    ensures 0.0 <= v <= 1.0 && dim >= 0 ==> 0 <= r <= dim
  {
    if 0.0 <= v <= 1.0 && dim >= 0 then ScaleWithin(v, dim); Trunc(v * dim as real)
    else Trunc(v * dim as real)
  }

  lemma ScaleWithin(v: real, dim: int)
    requires 0.0 <= v <= 1.0 && dim >= 0
    ensures 0.0 <= v * dim as real <= dim as real
  {
  }

  function DigitChar(d: int): char
    requires 0 <= d < 10
  {
    "0123456789"[d]
  }

  function DigitValue(c: char): int {
    c as int - '0' as int
  }

  /** Decimal digits of n, as str(n): never empty, never signed. */
  function NatToString(n: nat): (s: string)
    ensures |s| >= 1 && '0' <= s[0] <= '9'
  {
    if n < 10 then [DigitChar(n)] else NatToString(n / 10) + [DigitChar(n % 10)]
  }

  /** str(n) and '%d' % n of an integer. */
  function IntToString(n: int): string {
    if n < 0 then "-" + NatToString(-n) else NatToString(n)
  }

  function ParseNat(s: string): int {
    if s == [] then 0 else ParseNat(s[..|s| - 1]) * 10 + DigitValue(s[|s| - 1])
  }

  /** int(s) of a decimal string. */
  function ParseInt(s: string): int {
    if |s| > 0 && s[0] == '-' then -ParseNat(s[1..]) else ParseNat(s)
  }

  /** str(n) is a decimal numeral: digits only, no leading zero. */
  lemma {:induction false} NatToStringDigits(n: nat)
    ensures forall i :: 0 <= i < |NatToString(n)| ==> '0' <= NatToString(n)[i] <= '9'
    ensures n > 0 ==> NatToString(n)[0] != '0'
  {
    if n >= 10 {
      NatToStringDigits(n / 10);
      assert NatToString(n) == NatToString(n / 10) + [DigitChar(n % 10)];
    }
  }

  lemma {:induction false} NatRoundTrip(n: nat)
    ensures ParseNat(NatToString(n)) == n
  {
    var s := NatToString(n);
    if n >= 10 {
      var q, d := n / 10, n % 10;
      NatRoundTrip(q);
      DigitRoundTrip(d);
      assert s == NatToString(q) + [DigitChar(d)];
      assert s[..|s| - 1] == NatToString(q);
      assert ParseNat(s) == ParseNat(NatToString(q)) * 10 + DigitValue(DigitChar(d));
      assert q * 10 + d == n;
    } else {
      DigitRoundTrip(n);
      assert s[..0] == [];
    }
  }

  lemma DigitRoundTrip(d: int)
    requires 0 <= d < 10
    ensures DigitValue(DigitChar(d)) == d
  {
  }

  /** Reading an emitted integer field back gives the integer. */
  lemma IntRoundTrip(n: int)
    ensures ParseInt(IntToString(n)) == n
  {
    if n < 0 {
      NegativeRoundTrip(n);
    } else {
      NonNegativeRoundTrip(n);
    }
  }

  lemma NegativeRoundTrip(n: int)
    requires n < 0
    ensures ParseInt(IntToString(n)) == n
  {
    var m: nat := -n;
    var t := NatToString(m);
    assert IntToString(n) == "-" + t;
    NatRoundTrip(m);
    ParseNegated(t);
  }

  lemma ParseNegated(t: string)
    ensures ParseInt("-" + t) == -ParseNat(t)
  {
    assert ("-" + t)[1..] == t;
  }

  lemma NonNegativeRoundTrip(n: nat)
    ensures ParseInt(IntToString(n)) == n
  {
    var t := NatToString(n);
    NatRoundTrip(n);
    assert IntToString(n) == t;
    assert '0' <= t[0] <= '9';
  }

  /** The pixel box of a source row: fields 4..7 are read as x_min, x_max,
      y_min, y_max and scaled by the width or the height. */
  function PixelBox(row: Row, size: (int, int), toFloat: string -> real): Box
    requires |row| >= 8
  {
    Box(Denorm(toFloat(row[4]), size.0), Denorm(toFloat(row[6]), size.1),
        Denorm(toFloat(row[5]), size.0), Denorm(toFloat(row[7]), size.1))
  }

  /** convert_row. Errors: IndexError for an empty row (row[0]) or one
      shorter than eight fields, TypeError for an unknown split (membership
      test on None), KeyError for an unmapped label. Otherwise the row
      [image path, x_min, y_min, x_max, y_max, class id]. The float()
      conversion of a field is the parameter toFloat. */
  function ConvertRow(mode: string, sizes: SizeIndexes, row: Row, prefix: string, toFloat: string -> real)
    : (r: Result<Row>)
    ensures r.Ok? <==> |row| >= 8 && Switcher(mode, sizes).Some? && row[2] in LabelNameToClassId
    ensures r.Err? ==>
              r.error == (if |row| == 0 then IndexError
                          else if Switcher(mode, sizes).None? then TypeError
                          else if |row| < 8 then IndexError
                          else KeyError)
    ensures r.Ok? ==>
              var size := ImageSize(Switcher(mode, sizes).value, row[0] + ".jpg");
              var b := PixelBox(row, size, toFloat);
              && |r.value| == 6
              && r.value[0] == prefix + row[0] + ".jpg"
              && r.value[1..5] == [IntToString(b.xMin), IntToString(b.yMin), IntToString(b.xMax), IntToString(b.yMax)]
              && r.value[5] == "0"
  {
    if |row| == 0 then Err(IndexError)
    else match Switcher(mode, sizes)
      case None => Err(TypeError)
      case Some(sizeMap) =>
        if |row| < 8 then Err(IndexError)
        else if row[2] !in LabelNameToClassId then Err(KeyError)
        else
          var imageFilename := row[0] + ".jpg";
          var (width, height) := ImageSize(sizeMap, imageFilename);
          var xMin := IntToString(Denorm(toFloat(row[4]), width));
          var xMax := IntToString(Denorm(toFloat(row[5]), width));
          var yMin := IntToString(Denorm(toFloat(row[6]), height));
          var yMax := IntToString(Denorm(toFloat(row[7]), height));
          var classId := IntToString(LabelNameToClassId[row[2]]);
          Ok([prefix + imageFilename, xMin, yMin, xMax, yMax, classId])
  }

  /** Reading fields 1..4 of a converted row back gives the pixel box in
      the evaluator's order (x_min, y_min, x_max, y_max); with coordinates
      in [0, 1] and a non-negative size it lies inside the image. */
  lemma ConvertRowBox(mode: string, sizes: SizeIndexes, row: Row, prefix: string, toFloat: string -> real)
    requires ConvertRow(mode, sizes, row, prefix, toFloat).Ok?
    ensures var out := ConvertRow(mode, sizes, row, prefix, toFloat).value;
            var size := ImageSize(Switcher(mode, sizes).value, row[0] + ".jpg");
            && Box(ParseInt(out[1]), ParseInt(out[2]), ParseInt(out[3]), ParseInt(out[4])) == PixelBox(row, size, toFloat)
            && ParseInt(out[1]) == Trunc(toFloat(row[4]) * size.0 as real)
            && ParseInt(out[2]) == Trunc(toFloat(row[6]) * size.1 as real)
            && ParseInt(out[3]) == Trunc(toFloat(row[5]) * size.0 as real)
            && ParseInt(out[4]) == Trunc(toFloat(row[7]) * size.1 as real)
            && ((forall i :: 4 <= i < 8 ==> 0.0 <= toFloat(row[i]) <= 1.0) && size.0 >= 0 && size.1 >= 0 ==>
                  0 <= ParseInt(out[1]) <= size.0 && 0 <= ParseInt(out[3]) <= size.0 &&
                  0 <= ParseInt(out[2]) <= size.1 && 0 <= ParseInt(out[4]) <= size.1)
  {
    var out := ConvertRow(mode, sizes, row, prefix, toFloat).value;
    var size := ImageSize(Switcher(mode, sizes).value, row[0] + ".jpg");
    var b := PixelBox(row, size, toFloat);
    assert out[1] == out[1..5][0] && out[2] == out[1..5][1] && out[3] == out[1..5][2] && out[4] == out[1..5][3];
    IntRoundTrip(b.xMin);
    IntRoundTrip(b.yMin);
    IntRoundTrip(b.xMax);
    IntRoundTrip(b.yMax);
  }

  /** The rows kept by the label filter, in input order. */
  function Kept(rows: seq<Row>): seq<Row>
    requires forall i :: 0 <= i < |rows| ==> |rows[i]| >= 3
  {
    if rows == [] then []
    else
      Kept(rows[..|rows| - 1]) +
      (if rows[|rows| - 1][2] in LabelNameToClassId then [rows[|rows| - 1]] else [])
  }

  /** The filter loop of convert_annotations: IndexError at the first row
      without field 2, the first error of convert_row, or the converted
      rows. */
  function ConvertedRows(mode: string, sizes: SizeIndexes, prefix: string, toFloat: string -> real, rows: seq<Row>)
    : Result<seq<Row>>
  {
    if rows == [] then Ok([])
    else match ConvertedRows(mode, sizes, prefix, toFloat, rows[..|rows| - 1])
      case Err(e) => Err(e)
      case Ok(done) =>
        var row := rows[|rows| - 1];
        if |row| < 3 then Err(IndexError)
        else if row[2] !in LabelNameToClassId then Ok(done)
        else match ConvertRow(mode, sizes, row, prefix, toFloat)
          case Err(e) => Err(e)
          case Ok(converted) => Ok(done + [converted])
  }

  /** convert_annotations without the file reading and writing: filter
      and convert the rows, then group them by image path. */
  method ConvertAnnotations(mode: string, prefix: string, rows: seq<Row>, sizes: SizeIndexes, toFloat: string -> real)
    returns (r: Result<seq<string>>)
    ensures r == match ConvertedRows(mode, sizes, prefix, toFloat, rows)
                 case Err(e) => Err(e)
                 case Ok(converted) => GroupedLines(converted)
  {
    var convertedRows: seq<Row> := [];
    for i := 0 to |rows|
      invariant ConvertedRows(mode, sizes, prefix, toFloat, rows[..i]) == Ok(convertedRows)
    {
      assert rows[..i + 1][..i] == rows[..i];
      var row := rows[i];
      if |row| < 3 {
        ErrorPersists(mode, sizes, prefix, toFloat, rows, i + 1);
        return Err(IndexError);
      }
      if row[2] in LabelNameToClassId {
        var converted := ConvertRow(mode, sizes, row, prefix, toFloat);
        if converted.Err? {
          ErrorPersists(mode, sizes, prefix, toFloat, rows, i + 1);
          return Err(converted.error);
        }
        convertedRows := convertedRows + [converted.value];
      }
    }
    assert rows[..|rows|] == rows;
    r := GroupByImageId(convertedRows);
  }

  /** Once the loop has raised, the rest of the rows does not matter. */
  lemma {:induction false} ErrorPersists(mode: string, sizes: SizeIndexes, prefix: string, toFloat: string -> real,
                                         rows: seq<Row>, i: nat)
    requires i <= |rows|
    requires ConvertedRows(mode, sizes, prefix, toFloat, rows[..i]).Err?
    ensures ConvertedRows(mode, sizes, prefix, toFloat, rows) == ConvertedRows(mode, sizes, prefix, toFloat, rows[..i])
    decreases |rows| - i
  {
    if i < |rows| {
      assert rows[..i + 1][..i] == rows[..i];
      ErrorPersists(mode, sizes, prefix, toFloat, rows, i + 1);
    } else {
      assert rows[..i] == rows;
    }
  }

  // ---------------------------------------------------------------------
  // Properties of the filter and of the conversion

  /** The filter keeps exactly the rows whose label is mapped. */
  lemma {:induction false} KeptMembers(rows: seq<Row>)
    requires forall i :: 0 <= i < |rows| ==> |rows[i]| >= 3
    ensures forall row :: row in Kept(rows) <==> row in rows && row[2] in LabelNameToClassId
  {
    if rows != [] {
      var init := rows[..|rows| - 1];
      KeptMembers(init);
      assert rows == init + [rows[|rows| - 1]];
    }
  }

  /** The filter keeps relative order: it distributes over concatenation. */
  lemma {:induction false} KeptAppend(a: seq<Row>, b: seq<Row>)
    requires forall i :: 0 <= i < |a| ==> |a[i]| >= 3
    requires forall i :: 0 <= i < |b| ==> |b[i]| >= 3
    ensures forall i :: 0 <= i < |a + b| ==> |(a + b)[i]| >= 3
    ensures Kept(a + b) == Kept(a) + Kept(b)
    decreases |b|
  {
    if b == [] {
      assert a + b == a;
    } else {
      var init := b[..|b| - 1];
      KeptAppend(a, init);
      assert (a + b)[..|a + b| - 1] == a + init;
    }
  }

  /** The loop succeeds exactly when every row has field 2 and every kept
      row can be converted (a known split and at least eight fields); its
      result is then convert_row of each kept row, in order. */
  lemma {:induction false} ConvertedRowsMeaning(mode: string, sizes: SizeIndexes, prefix: string,
                                                toFloat: string -> real, rows: seq<Row>)
    ensures ConvertedRows(mode, sizes, prefix, toFloat, rows).Ok? <==>
              && (forall i :: 0 <= i < |rows| ==> |rows[i]| >= 3)
              && (forall i :: 0 <= i < |rows| && rows[i][2] in LabelNameToClassId ==>
                    |rows[i]| >= 8 && Switcher(mode, sizes).Some?)
    ensures ConvertedRows(mode, sizes, prefix, toFloat, rows).Ok? ==>
              var converted := ConvertedRows(mode, sizes, prefix, toFloat, rows).value;
              && (forall i :: 0 <= i < |rows| ==> |rows[i]| >= 3)
              && |converted| == |Kept(rows)|
              && forall k :: 0 <= k < |converted| ==>
                   ConvertRow(mode, sizes, Kept(rows)[k], prefix, toFloat) == Ok(converted[k])
  {
    ConvertedRowsOk(mode, sizes, prefix, toFloat, rows);
    if ConvertedRows(mode, sizes, prefix, toFloat, rows).Ok? {
      ConvertedRowsValue(mode, sizes, prefix, toFloat, rows);
    }
  }

  lemma {:induction false} ConvertedRowsOk(mode: string, sizes: SizeIndexes, prefix: string,
                                           toFloat: string -> real, rows: seq<Row>)
    ensures ConvertedRows(mode, sizes, prefix, toFloat, rows).Ok? <==>
              && (forall i :: 0 <= i < |rows| ==> |rows[i]| >= 3)
              && (forall i :: 0 <= i < |rows| && rows[i][2] in LabelNameToClassId ==>
                    |rows[i]| >= 8 && Switcher(mode, sizes).Some?)
  {
    if rows != [] {
      var init := rows[..|rows| - 1];
      ConvertedRowsOk(mode, sizes, prefix, toFloat, init);
      assert forall i :: 0 <= i < |init| ==> init[i] == rows[i];
    }
  }

  lemma {:induction false} ConvertedRowsValue(mode: string, sizes: SizeIndexes, prefix: string,
                                              toFloat: string -> real, rows: seq<Row>)
    requires ConvertedRows(mode, sizes, prefix, toFloat, rows).Ok?
    ensures forall i :: 0 <= i < |rows| ==> |rows[i]| >= 3
    ensures var converted := ConvertedRows(mode, sizes, prefix, toFloat, rows).value;
              && |converted| == |Kept(rows)|
              && forall k :: 0 <= k < |converted| ==>
                   ConvertRow(mode, sizes, Kept(rows)[k], prefix, toFloat) == Ok(converted[k])
  {
    if rows != [] {
      var init := rows[..|rows| - 1];
      ConvertedRowsValue(mode, sizes, prefix, toFloat, init);
      assert forall i :: 0 <= i < |init| ==> init[i] == rows[i];
    }
  }

  /** Converted rows all have an image path, so the grouping succeeds and
      yields one line per image path holding one box per converted row. */
  lemma ConvertedRowsGroup(mode: string, sizes: SizeIndexes, prefix: string, toFloat: string -> real, rows: seq<Row>)
    requires ConvertedRows(mode, sizes, prefix, toFloat, rows).Ok?
    ensures var converted := ConvertedRows(mode, sizes, prefix, toFloat, rows).value;
            && AllNonEmpty(converted)
            && GroupedLines(converted).Ok?
            && |GroupedLines(converted).value| == |Paths(converted)|
            && (forall i :: 0 <= i < |rows| ==> |rows[i]| >= 3)
            && BoxCount(converted, FirstSeen(converted)) == |Kept(rows)|
  {
    ConvertedRowsMeaning(mode, sizes, prefix, toFloat, rows);
    var converted := ConvertedRows(mode, sizes, prefix, toFloat, rows).value;
    assert AllNonEmpty(converted);
    GroupedLinesProperties(converted);
  }

  /** The scenario of an image of 100 x 200 pixels with one plate at
      x 0.1 .. 0.2, y 0.3 .. 0.4: the output row is 10, 60, 20, 80. */
  lemma ConvertRowScenario(toFloat: string -> real)
    requires toFloat("0.1") == 0.1 && toFloat("0.2") == 0.2
    requires toFloat("0.3") == 0.3 && toFloat("0.4") == 0.4
    ensures var sizes := SizeIndexes(map["5.jpg" := (100, 200)], map[], map[]);
            var row := ["5", "xclick", "/m/01jfm_", "1", "0.1", "0.2", "0.3", "0.4"];
            ConvertRow("train", sizes, row, "img/", toFloat) == Ok(["img/5.jpg", "10", "60", "20", "80", "0"])
  {
    var sizes := SizeIndexes(map["5.jpg" := (100, 200)], map[], map[]);
    var row := ["5", "xclick", "/m/01jfm_", "1", "0.1", "0.2", "0.3", "0.4"];
    assert row[0] + ".jpg" == "5.jpg";
    assert ImageSize(sizes.train, "5.jpg") == (100, 200);
    assert toFloat(row[4]) == 0.1 && toFloat(row[5]) == 0.2 && toFloat(row[6]) == 0.3 && toFloat(row[7]) == 0.4;
    assert Denorm(0.1, 100) == 10 && Denorm(0.2, 100) == 20;
    assert Denorm(0.3, 200) == 60 && Denorm(0.4, 200) == 80;
    assert NatToString(1) == "1" && NatToString(6) == "6" && NatToString(2) == "2" && NatToString(8) == "8";
    assert NatToString(10) == "10" && NatToString(60) == "60";
    assert NatToString(20) == "20" && NatToString(80) == "80";
    var out := ConvertRow("train", sizes, row, "img/", toFloat);
    assert out.Ok?;
    var b := PixelBox(row, (100, 200), toFloat);
    assert b == Box(10, 60, 20, 80);
    assert out.value[1..5] == ["10", "60", "20", "80"];
    assert "img/" + row[0] + ".jpg" == "img/5.jpg";
    assert out.value[0] == "img/5.jpg" && out.value[5] == "0" && |out.value| == 6;
    assert out.value == [out.value[0]] + out.value[1..5] + [out.value[5]];
  }
}
