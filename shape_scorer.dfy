/**
 * The shape aggregator: each candidate row's seed and supplementary shape
 * scores are the averages, over the shape sources, of the per-source
 * values the shape aligner produced, and they are appended to the
 * conservation-scored feature rows, paired by position.
 */
module ShapeScorer {
  import opened Scores
  import ShapeParser

  /**
   * One row of the parsed-shape table as `csv.DictReader` gives it: column
   * name to value, where the text "NA" is `Missing`.
   */
  type ParsedRow = map<string, Score>

  /** A cell of a feature row: the text read from the features file, or an appended score ("NA" when missing). */
  datatype Cell = Text(text: string) | Value(score: Score)

  /** Every listed column is present in the row. */
  predicate HasColumns(shape: ParsedRow, cols: seq<string>)
  {
    forall k :: 0 <= k < |cols| ==> cols[k] in shape
  }

  /** The values of the listed columns that are not "NA", in list order. */
  function Available(shape: ParsedRow, cols: seq<string>): (xs: seq<real>)
    requires HasColumns(shape, cols)
    ensures |xs| <= |cols|
    ensures (forall k :: 0 <= k < |cols| ==> shape[cols[k]].Num?) ==> |xs| == |cols|
    ensures (forall k :: 0 <= k < |cols| ==> shape[cols[k]].Missing?) ==> xs == []
    ensures forall i :: 0 <= i < |xs| ==> exists k :: 0 <= k < |cols| && shape[cols[k]] == Num(xs[i])
    decreases |cols|
  {
    if cols == [] then []
    else
      var c := cols[|cols| - 1];
      Available(shape, cols[..|cols| - 1]) + (if shape[c].Num? then [shape[c].value] else [])
  }

  /** The values available from two lists of columns are those of the first list followed by those of the second. */
  lemma {:induction false} AvailableConcat(shape: ParsedRow, a: seq<string>, b: seq<string>)
    requires HasColumns(shape, a) && HasColumns(shape, b)
    ensures HasColumns(shape, a + b)
    ensures Available(shape, a + b) == Available(shape, a) + Available(shape, b)
    decreases |b|
  {
    assert forall k :: 0 <= k < |a + b| ==> (a + b)[k] == if k < |a| then a[k] else b[k - |a|];
    if b == [] {
      assert a + b == a;
    } else {
      assert (a + b)[..|a + b| - 1] == a + b[..|b| - 1];
      AvailableConcat(shape, a, b[..|b| - 1]);
    }
  }

  /** Nothing is available exactly when every listed column is "NA" (or none is listed). */
  lemma {:induction false} AvailableEmpty(shape: ParsedRow, cols: seq<string>)
    requires HasColumns(shape, cols)
    ensures Available(shape, cols) == [] <==> forall k :: 0 <= k < |cols| ==> shape[cols[k]].Missing?
    decreases |cols|
  {
    if cols != [] {
      var init := cols[..|cols| - 1];
      AvailableEmpty(shape, init);
      assert forall k :: 0 <= k < |init| ==> init[k] == cols[k];
    }
  }

  /** Bounds on the listed columns' values bound every available value. */
  lemma {:induction false} AvailableWithin(shape: ParsedRow, cols: seq<string>, lo: real, hi: real)
    requires HasColumns(shape, cols)
    requires forall k :: 0 <= k < |cols| ==> shape[cols[k]].Missing? || lo <= shape[cols[k]].value <= hi
    ensures forall i :: 0 <= i < |Available(shape, cols)| ==> lo <= Available(shape, cols)[i] <= hi
    decreases |cols|
  {
    if cols != [] {
      var init := cols[..|cols| - 1];
      assert forall k :: 0 <= k < |init| ==> init[k] == cols[k];
      AvailableWithin(shape, init, lo, hi);
    }
  }

  /**
   * `compute_average`: the mean over the shape sources that have a value,
   * "NA" when none has one.
   */
  function Average(shape: ParsedRow, cols: seq<string>): (a: Score)
    requires HasColumns(shape, cols)
    ensures a.Missing? <==> forall k :: 0 <= k < |cols| ==> shape[cols[k]].Missing?
    ensures a.Num? ==> a.value * |Available(shape, cols)| as real == Sum(Available(shape, cols))
  {
    AvailableEmpty(shape, cols);
    var xs := Available(shape, cols);
    if xs == [] then Missing else Num(Mean(xs))
  }

  /** A column holding "NA" adds to neither the total nor the count, wherever it appears in the list. */
  lemma AverageIgnoresMissing(shape: ParsedRow, a: seq<string>, c: string, b: seq<string>)
    requires HasColumns(shape, a) && HasColumns(shape, b)
    requires c in shape && shape[c].Missing?
    ensures HasColumns(shape, a + [c] + b) && HasColumns(shape, a + b)
    ensures Available(shape, a + [c] + b) == Available(shape, a + b)
    ensures Average(shape, a + [c] + b) == Average(shape, a + b)
  {
    AvailableConcat(shape, a, [c]);
    assert Available(shape, [c]) == [] by {
      assert [c][..0] == [];
    }
    AvailableConcat(shape, a + [c], b);
    AvailableConcat(shape, a, b);
  }

  /** An average lies between any bounds of the source values it averages. */
  lemma AverageBounds(shape: ParsedRow, cols: seq<string>, lo: real, hi: real)
    requires HasColumns(shape, cols)
    requires forall k :: 0 <= k < |cols| ==> shape[cols[k]].Missing? || lo <= shape[cols[k]].value <= hi
    ensures Average(shape, cols).Num? ==> lo <= Average(shape, cols).value <= hi
  {
    var xs := Available(shape, cols);
    if xs != [] {
      AvailableWithin(shape, cols, lo, hi);
      MeanBounds(xs, lo, hi);
    }
  }

  /** Three sources, one of them "NA": the average of the other two. */
  lemma AverageExample()
    ensures var shape := map["a_seed" := Num(0.2), "b_seed" := Missing, "c_seed" := Num(0.6)];
      Average(shape, ["a_seed", "b_seed", "c_seed"]) == Num(0.4)
  {
    var shape := map["a_seed" := Num(0.2), "b_seed" := Missing, "c_seed" := Num(0.6)];
    var cols := ["a_seed", "b_seed", "c_seed"];
    assert cols[..2] == ["a_seed", "b_seed"] && cols[..2][..1] == ["a_seed"] && cols[..2][..1][..0] == [];
    assert Available(shape, cols) == [0.2, 0.6];
    assert Sum([0.2, 0.6]) == 0.8 by {
      assert [0.2, 0.6][..1] == [0.2] && [0.2][..0] == [];
    }
  }

  /** `compute_average`, accumulating the total and the count of the available values. */
  method ComputeAverage(shape: ParsedRow, cols: seq<string>) returns (a: Score)
    requires HasColumns(shape, cols)
    ensures a == Average(shape, cols)
  {
    var total := 0.0;
    var available := 0;
    var k := 0;
    while k < |cols|
      invariant k <= |cols|
      invariant total == Sum(Available(shape, cols[..k]))
      invariant available == |Available(shape, cols[..k])|
    {
      assert cols[..k + 1][..k] == cols[..k];
      SumAppend(Available(shape, cols[..k]), if shape[cols[k]].Num? then [shape[cols[k]].value] else []);
      if shape[cols[k]].Num? {
        available := available + 1;
        total := total + shape[cols[k]].value;
        assert Sum([shape[cols[k]].value]) == shape[cols[k]].value;
      }
      k := k + 1;
    }
    assert cols[..k] == cols;
    if available == 0 {
      a := Missing;
    } else {
      a := Num(total / available as real);
    }
  }

  /** The header of the output table: the feature header followed by the two new columns. */
  function OutputHeader(header: seq<string>): (out: seq<string>)
    ensures |out| == |header| + 2 && out[..|header|] == header
    ensures out[|header|] == "shape_seed" && out[|header| + 1] == "shape_sup"
  {
    header + ["shape_seed", "shape_sup"]
  }

  function Min(a: nat, b: nat): nat
  {
    if a <= b then a else b
  }

  /** Every parsed-shape row that is paired with a feature row holds every seed and supplementary column. */
  predicate PairedRowsComplete(features: seq<seq<Cell>>, parsed: seq<ParsedRow>, seedCols: seq<string>, supCols: seq<string>)
  {
    forall k :: 0 <= k < Min(|features|, |parsed|) ==> HasColumns(parsed[k], seedCols) && HasColumns(parsed[k], supCols)
  }

  /**
   * The table `score_shape` writes: feature row `k` is paired with
   * parsed-shape row `k` only, pairing stops at the shorter list, a paired
   * row gains its seed average then its supplementary average, and an
   * unpaired feature row is written as it was.
   */
  method ScoreShape(header: seq<string>, features: seq<seq<Cell>>, parsed: seq<ParsedRow>, seedCols: seq<string>, supCols: seq<string>)
    returns (outHeader: seq<string>, outRows: seq<seq<Cell>>)
    requires PairedRowsComplete(features, parsed, seedCols, supCols)
    ensures outHeader == OutputHeader(header)
    ensures |outRows| == |features|
    ensures forall k :: 0 <= k < Min(|features|, |parsed|) ==>
      outRows[k] == features[k] + [Value(Average(parsed[k], seedCols)), Value(Average(parsed[k], supCols))]
    ensures forall k :: Min(|features|, |parsed|) <= k < |features| ==> outRows[k] == features[k]
  {
    outHeader := header + ["shape_seed", "shape_sup"];
    outRows := features;
    var pairs := Min(|features|, |parsed|);
    var k := 0;
    while k < pairs
      invariant k <= pairs
      invariant |outRows| == |features|
      invariant forall j :: 0 <= j < k ==>
        outRows[j] == features[j] + [Value(Average(parsed[j], seedCols)), Value(Average(parsed[j], supCols))]
      invariant forall j :: k <= j < |features| ==> outRows[j] == features[j]
    {
      var seed := ComputeAverage(parsed[k], seedCols);
      var sup := ComputeAverage(parsed[k], supCols);
      outRows := outRows[k := outRows[k] + [Value(seed), Value(sup)]];
      k := k + 1;
    }
  }

  /**
   * The column lists `__init__` builds: for each shape file, in listing
   * order, its source name followed by "_seed", and followed by "_sup".
   */
  method SourceColumnLists(fileNames: seq<string>) returns (seedCols: seq<string>, supCols: seq<string>)
    ensures |seedCols| == |fileNames| && |supCols| == |fileNames|
    ensures forall k :: 0 <= k < |fileNames| ==>
      seedCols[k] == ShapeParser.SourceLabels(ShapeParser.SourceName(fileNames[k])).seed
      && supCols[k] == ShapeParser.SourceLabels(ShapeParser.SourceName(fileNames[k])).sup
  {
    seedCols := [];
    supCols := [];
    var k := 0;
    while k < |fileNames|
      invariant k <= |fileNames|
      invariant |seedCols| == k && |supCols| == k
      invariant forall j :: 0 <= j < k ==>
        seedCols[j] == ShapeParser.SourceLabels(ShapeParser.SourceName(fileNames[j])).seed
        && supCols[j] == ShapeParser.SourceLabels(ShapeParser.SourceName(fileNames[j])).sup
    {
      var source := ShapeParser.SourceName(fileNames[k]);
      seedCols := seedCols + [source + "_seed"];
      supCols := supCols + [source + "_sup"];
      k := k + 1;
    }
  }

  /** No seed column of any source is the supplementary column of any source: a seed name ends in 'd', a supplementary one in 'p'. */
  lemma SeedAndSupNeverCollide(a: string, b: string)
    ensures ShapeParser.SourceLabels(a).seed != ShapeParser.SourceLabels(b).sup
  {
    var s, t := ShapeParser.SourceLabels(a).seed, ShapeParser.SourceLabels(b).sup;
    assert s[|s| - 1] == "_seed"[4] == 'd';
    assert t[|t| - 1] == "_sup"[3] == 'p';
  }
}
