/** group_by_image_id of the annotation converter: rows that share an
    image path (field 0) are merged into one line
    "path f,f,f,f,f f,f,f,f,f ...", one box per row, in input order. */
module Grouping {
  import opened Results
  import opened Seqs

  type Row = seq<string>

  /** Python's sep.join(xs). */
  function Join(sep: string, xs: seq<string>): string {
    if xs == [] then ""
    else if |xs| == 1 then xs[0]
    else Join(sep, xs[..|xs| - 1]) + sep + xs[|xs| - 1]
  }

  /** Every row has a field 0 (row[0] does not raise). */
  predicate AllNonEmpty(rows: seq<Row>) {
    forall i :: 0 <= i < |rows| ==> |rows[i]| >= 1
  }

  /** ','.join(row[1:]): one box of an output line. */
  function Entry(row: Row): string
    requires |row| >= 1
  {
    Join(",", row[1..])
  }

  /** The distinct image paths of the rows. */
  function Paths(rows: seq<Row>): set<string>
    requires AllNonEmpty(rows)
  {
    set i | 0 <= i < |rows| :: rows[i][0]
  }

  /** The boxes of the rows whose path is `path`, in input order. */
  function Entries(rows: seq<Row>, path: string): seq<string>
    requires AllNonEmpty(rows)
  {
    if rows == [] then []
    else
      Entries(rows[..|rows| - 1], path) +
      (if rows[|rows| - 1][0] == path then [Entry(rows[|rows| - 1])] else [])
  }

  /** The image paths in first-encounter order. */
  function FirstSeen(rows: seq<Row>): seq<string>
    requires AllNonEmpty(rows)
  {
    if rows == [] then []
    else
      var earlier := FirstSeen(rows[..|rows| - 1]);
      if rows[|rows| - 1][0] in earlier then earlier else earlier + [rows[|rows| - 1][0]]
  }

  /** The output line of one image path. */
  function Line(rows: seq<Row>, path: string): string
    requires AllNonEmpty(rows)
  {
    path + " " + Join(" ", Entries(rows, path))
  }

  /** What group_by_image_id returns: IndexError on a row without field 0,
      otherwise one line per image path, in first-encounter order. */
  function GroupedLines(rows: seq<Row>): Result<seq<string>> {
    if !AllNonEmpty(rows) then Err(IndexError)
    else
      var keys := FirstSeen(rows);
      Ok(seq(|keys|, k requires 0 <= k < |keys| => Line(rows, keys[k])))
  }

  /** The loop that extends the strings of output_dict in place. The dict
      is a map together with its insertion order. */
  method GroupByImageId(rows: seq<Row>) returns (r: Result<seq<string>>)
    ensures r == GroupedLines(rows)
  {
    var outputDict: map<string, string> := map[];
    var order: seq<string> := [];
    for i := 0 to |rows|
      invariant AllNonEmpty(rows[..i])
      invariant order == FirstSeen(rows[..i])
      invariant outputDict.Keys == Elems(order)
      invariant forall p :: p in outputDict ==> outputDict[p] == Line(rows[..i], p)
    {
      var row := rows[i];
      if |row| == 0 {
        assert !AllNonEmpty(rows) by {
          assert |rows[i]| == 0;
        }
        return Err(IndexError);
      }
      var curImagePath := row[0];
      var done := rows[..i];
      assert rows[..i + 1] == done + [row];
      LineStep(done, row);
      FirstSeenPaths(done);
      if curImagePath in outputDict {
        outputDict := outputDict[curImagePath := outputDict[curImagePath] + " " + Entry(row)];
      } else {
        outputDict := outputDict[curImagePath := curImagePath + " " + Entry(row)];
        ElemsAppend(order, curImagePath);
        order := order + [curImagePath];
      }
    }
    assert rows[..|rows|] == rows;
    r := Ok(seq(|order|, k requires 0 <= k < |order| => outputDict[order[k]]));
    assert forall k :: 0 <= k < |order| ==> order[k] in Elems(order);
    assert r.value == GroupedLines(rows).value;
  }

  lemma JoinAppend(sep: string, xs: seq<string>, x: string)
    requires xs != []
    ensures Join(sep, xs + [x]) == Join(sep, xs) + sep + x
  {
    assert (xs + [x])[..|xs|] == xs;
  }

  /** How one more row changes the line of each path. */
  lemma LineStep(rows: seq<Row>, row: Row)
    requires AllNonEmpty(rows) && |row| >= 1
    ensures AllNonEmpty(rows + [row])
    ensures forall p :: p != row[0] ==> Line(rows + [row], p) == Line(rows, p)
    ensures Entries(rows, row[0]) == [] ==> Line(rows + [row], row[0]) == row[0] + " " + Entry(row)
    ensures Entries(rows, row[0]) != [] ==> Line(rows + [row], row[0]) == Line(rows, row[0]) + " " + Entry(row)
  {
    var all := rows + [row];
    assert all[..|all| - 1] == rows;
    forall p | p != row[0]
      ensures Entries(all, p) == Entries(rows, p)
    {
    }
    if Entries(rows, row[0]) != [] {
      JoinAppend(" ", Entries(rows, row[0]), Entry(row));
    }
  }

  /** A path has been seen exactly when it has boxes. */
  lemma {:induction false} FirstSeenPaths(rows: seq<Row>)
    requires AllNonEmpty(rows)
    ensures Elems(FirstSeen(rows)) == Paths(rows)
    ensures forall p :: p in FirstSeen(rows) <==> Entries(rows, p) != []
    ensures Distinct(FirstSeen(rows))
  {
    if rows != [] {
      var init := rows[..|rows| - 1];
      var last := rows[|rows| - 1];
      FirstSeenPaths(init);
      assert rows == init + [last];
      PathsStep(rows);
      if last[0] !in FirstSeen(init) {
        ElemsAppend(FirstSeen(init), last[0]);
      }
    }
  }

  lemma PathsStep(rows: seq<Row>)
    requires AllNonEmpty(rows) && rows != []
    ensures Paths(rows) == Paths(rows[..|rows| - 1]) + {rows[|rows| - 1][0]}
  {
    var init := rows[..|rows| - 1];
    forall p | p in Paths(rows) ensures p in Paths(init) + {rows[|rows| - 1][0]} {
      var i :| 0 <= i < |rows| && rows[i][0] == p;
      if i < |init| {
        assert init[i] == rows[i];
      }
    }
    forall p | p in Paths(init) ensures p in Paths(rows) {
      var i :| 0 <= i < |init| && init[i][0] == p;
      assert rows[i] == init[i];
    }
  }

  /** Entries keeps input order: it distributes over concatenation. */
  lemma {:induction false} EntriesAppend(a: seq<Row>, b: seq<Row>, path: string)
    requires AllNonEmpty(a) && AllNonEmpty(b)
    ensures AllNonEmpty(a + b)
    ensures Entries(a + b, path) == Entries(a, path) + Entries(b, path)
    decreases |b|
  {
    if b == [] {
      assert a + b == a;
    } else {
      var init := b[..|b| - 1];
      EntriesAppend(a, init, path);
      assert (a + b)[..|a + b| - 1] == a + init;
    }
  }

  /** Number of boxes on the lines of the paths in keys. */
  function BoxCount(rows: seq<Row>, keys: seq<string>): nat
    requires AllNonEmpty(rows)
  {
    if keys == [] then 0 else |Entries(rows, keys[0])| + BoxCount(rows, keys[1..])
  }

  lemma {:induction false} BoxCountStep(rows: seq<Row>, row: Row, keys: seq<string>)
    requires AllNonEmpty(rows) && |row| >= 1 && Distinct(keys)
    ensures AllNonEmpty(rows + [row])
    ensures BoxCount(rows + [row], keys) == BoxCount(rows, keys) + (if row[0] in keys then 1 else 0)
  {
    var all := rows + [row];
    assert all[..|all| - 1] == rows;
    if keys != [] {
      assert Distinct(keys[1..]);
      BoxCountStep(rows, row, keys[1..]);
      assert row[0] in keys <==> row[0] == keys[0] || row[0] in keys[1..];
      if row[0] == keys[0] {
        assert row[0] !in keys[1..];
      }
    }
  }

  lemma {:induction false} BoxCountAppendKey(rows: seq<Row>, keys: seq<string>, p: string)
    requires AllNonEmpty(rows)
    ensures BoxCount(rows, keys + [p]) == BoxCount(rows, keys) + |Entries(rows, p)|
  {
    if keys != [] {
      assert (keys + [p])[1..] == keys[1..] + [p];
      BoxCountAppendKey(rows, keys[1..], p);
    } else {
      assert ([] + [p])[1..] == [];
    }
  }

  /** Every row contributes exactly one box to exactly one line. */
  lemma {:induction false} BoxCountIsRowCount(rows: seq<Row>)
    requires AllNonEmpty(rows)
    ensures BoxCount(rows, FirstSeen(rows)) == |rows|
  {
    if rows != [] {
      var init := rows[..|rows| - 1];
      var last := rows[|rows| - 1];
      assert rows == init + [last];
      BoxCountIsRowCount(init);
      FirstSeenPaths(init);
      BoxCountStep(init, last, FirstSeen(init));
      if last[0] !in FirstSeen(init) {
        BoxCountAppendKey(rows, FirstSeen(init), last[0]);
        assert Entries(rows, last[0]) == [Entry(last)];
      }
    }
  }

  /** One output line per distinct image path: the lines are the lines of
      the paths, each path has its line, and the boxes on all lines
      together number the rows. */
  lemma GroupedLinesProperties(rows: seq<Row>)
    requires AllNonEmpty(rows)
    ensures GroupedLines(rows).Ok?
    ensures |GroupedLines(rows).value| == |Paths(rows)|
    ensures forall p :: p in Paths(rows) ==>
              exists k :: 0 <= k < |GroupedLines(rows).value| && GroupedLines(rows).value[k] == Line(rows, p)
    ensures forall k :: 0 <= k < |GroupedLines(rows).value| ==>
              exists p :: p in Paths(rows) && GroupedLines(rows).value[k] == Line(rows, p)
    ensures BoxCount(rows, FirstSeen(rows)) == |rows|
  {
    var keys := FirstSeen(rows);
    var lines := GroupedLines(rows).value;
    FirstSeenPaths(rows);
    DistinctElemsCard(keys);
    forall p | p in Paths(rows)
      ensures exists k :: 0 <= k < |lines| && lines[k] == Line(rows, p)
    {
      assert p in Elems(keys);
      var k :| 0 <= k < |keys| && keys[k] == p;
      assert lines[k] == Line(rows, p);
    }
    forall k | 0 <= k < |lines|
      ensures exists p :: p in Paths(rows) && lines[k] == Line(rows, p)
    {
      assert keys[k] in Elems(keys);
    }
    BoxCountIsRowCount(rows);
  }
}
