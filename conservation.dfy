/**
 * The conservation aligner: a sorted merge-walk of conservation track lines
 * against the candidate-site table. A cursor walks the table while the
 * track lines are consumed in order; each line is skipped, advances the
 * cursor row by row, or matches a block of rows on one transcript, and
 * each matched row gets four windowed means of the line's per-base scores.
 */
module Conservation {
  import opened Scores
  import opened Table
  import Names

  /** One line of a conservation track: the accession, then one token per base. */
  datatype TrackLine = TrackLine(transcriptId: string, scores: seq<Score>)

  /** One conservation track file: its file name and its lines in file order. */
  datatype TrackFile = TrackFile(fileName: string, lines: seq<TrackLine>)

  /** The four scored regions around a binding site. */
  datatype Region = Seed | Sup | ThreePrime | FivePrime

  /** The four columns one track writes, named by region. */
  datatype Labels = Labels(seed: string, sup: string, threePrime: string, fivePrime: string)

  function Label(ls: Labels, g: Region): string
  {
    match g
    case Seed => ls.seed
    case Sup => ls.sup
    case ThreePrime => ls.threePrime
    case FivePrime => ls.fivePrime
  }

  /** No two regions share a column. */
  predicate Distinct(ls: Labels)
  {
    && ls.seed != ls.sup && ls.seed != ls.threePrime && ls.seed != ls.fivePrime
    && ls.sup != ls.threePrime && ls.sup != ls.fivePrime && ls.threePrime != ls.fivePrime
  }

  /** The four column names of a track, as a set. */
  function TrackColumns(ls: Labels): (cs: set<string>)
    ensures forall g :: Label(ls, g) in cs
  {
    {ls.seed, ls.sup, ls.threePrime, ls.fivePrime}
  }

  /**
   * The columns a track called `track` writes: the track name followed by
   * "_seed", "_sup", "_3" and "_5".
   */
  function TrackLabels(track: string): (ls: Labels)
    ensures Distinct(ls)
    ensures |ls.seed| == |track| + 5 && ls.seed[..|track|] == track && ls.seed[|track|..] == "_seed"
    ensures |ls.sup| == |track| + 4 && ls.sup[..|track|] == track && ls.sup[|track|..] == "_sup"
    ensures |ls.threePrime| == |track| + 2 && ls.threePrime[..|track|] == track && ls.threePrime[|track|..] == "_3"
    ensures |ls.fivePrime| == |track| + 2 && ls.fivePrime[..|track|] == track && ls.fivePrime[|track|..] == "_5"
  {
    var ls := Labels(track + "_seed", track + "_sup", track + "_3", track + "_5");
    assert |ls.seed| == |track| + 5 && |ls.sup| == |track| + 4;
    assert |ls.threePrime| == |track| + 2 && |ls.fivePrime| == |track| + 2;
    assert ls.threePrime[|track| + 1] == '3' && ls.fivePrime[|track| + 1] == '5';
    ls
  }

  /**
   * The window of a region for the 1-based anchor `p`, as
   * `parse_transcript` derives it: the seed starts two bases before the anchor and spans 8;
   * the supplementary window starts 9 after the anchor and spans 12; the
   * three-prime window starts with it and spans 30; the five-prime window
   * ends one base before the seed's start and spans 30.
   */
  function RegionWindow(g: Region, p: int): (w: Window)
    ensures g == Seed ==> w.start == p - 2 && w.stop - w.start == 8
    ensures g == Sup ==> w.start == p + 9 && w.stop - w.start == 12
    ensures g == ThreePrime ==> w.start == p + 9 && w.stop - w.start == 30
    ensures g == FivePrime ==> w.stop == p - 3 && w.stop - w.start == 30
  {
    var startSeed := p - 2;
    var startSup := p + 9;
    var end5 := startSeed - 1;
    match g
    case Seed => Window(startSeed, startSeed + 8)
    case Sup => Window(startSup, startSup + 12)
    case ThreePrime => Window(startSup, startSup + 30)
    case FivePrime => Window(end5 - 30, end5)
  }

  /**
   * `compute_mean_score`: a window holding the token "NA", or no token at
   * all, is missing; otherwise its value is the arithmetic mean.
   */
  function MeanScore(raw: seq<Score>): (r: Score)
    ensures r.Missing? <==> (|raw| == 0 || Missing in raw)
    ensures r.Num? ==> r.value * |raw| as real == Sum(Values(raw))
  {
    if Missing in raw || |raw| == 0 then Missing else Num(Mean(Values(raw)))
  }

  /** The mean of a region of a track line for anchor `p`. */
  function RegionMean(scores: seq<Score>, g: Region, p: int): Score
  {
    MeanScore(Cut(scores, RegionWindow(g, p)))
  }

  /** A window mean lies within the range of the scores it covers. */
  lemma MeanScoreBounds(raw: seq<Score>, lo: real, hi: real)
    requires forall k :: 0 <= k < |raw| ==> raw[k].Num? && lo <= raw[k].value <= hi
    requires raw != []
    ensures MeanScore(raw).Num?
    ensures lo <= MeanScore(raw).value <= hi
  {
    assert Missing !in raw;
    MeanBounds(Values(raw), lo, hi);
  }

  /** With an anchor at least -9 the supplementary window is the first 12 bases of the three-prime window. */
  lemma SupIsPrefixOfThreePrime(scores: seq<Score>, p: int)
    requires p >= -9
    ensures Cut(scores, RegionWindow(Sup, p)) <= Cut(scores, RegionWindow(ThreePrime, p))
    ensures p + 21 <= |scores| ==> |Cut(scores, RegionWindow(Sup, p))| == 12
  {
    SliceSplit(scores, p + 9, p + 21, p + 39);
  }

  /**
   * With the whole neighbourhood in range, the five-prime window, the one
   * base at `p - 3` and the seed window tile the bases from `p - 33` to `p + 6`.
   */
  lemma FivePrimeGapBeforeSeed(scores: seq<Score>, p: int)
    requires 33 <= p && p + 6 <= |scores|
    ensures Cut(scores, RegionWindow(FivePrime, p)) + [scores[p - 3]] + Cut(scores, RegionWindow(Seed, p))
            == Slice(scores, p - 33, p + 6)
  {
    SliceSplit(scores, p - 33, p - 3, p + 6);
    SliceSplit(scores, p - 3, p - 2, p + 6);
    assert Slice(scores, p - 3, p - 2) == [scores[p - 3]];
  }

  /** The track of the scores 1, 2, ..., 50. */
  function RampTrack(): (scores: seq<Score>)
    ensures |scores| == 50
  {
    seq(50, k requires 0 <= k < 50 => Num(k as real + 1.0))
  }

  lemma RampWindow(lo: nat, hi: nat)
    requires lo < hi <= 50
    ensures MeanScore(RampTrack()[lo..hi]) == Num(Mean(Ramp(lo as real + 1.0, hi - lo)))
  {
    var raw := RampTrack()[lo..hi];
    assert Missing !in raw;
    assert Values(raw) == Ramp(lo as real + 1.0, hi - lo);
  }

  /**
   * Anchor 10 on the track 1..50: the seed averages bases [8, 16), the
   * supplementary window [19, 31) and the three-prime window [19, 49). The
   * five-prime window [-23, 7) counts its start from the end, giving the
   * empty slice [27, 7), so it is missing rather than the mean of [0, 7).
   */
  lemma RampExample()
    ensures RegionMean(RampTrack(), Seed, 10) == Num(12.5)
    ensures RegionMean(RampTrack(), Sup, 10) == Num(25.5)
    ensures RegionMean(RampTrack(), ThreePrime, 10) == Num(34.5)
    ensures RegionMean(RampTrack(), FivePrime, 10) == Missing
  {
    var s := RampTrack();
    RampWindow(8, 16);
    RampSum(9.0, 8);
    RampWindow(19, 31);
    RampSum(20.0, 12);
    RampWindow(19, 49);
    RampSum(20.0, 30);
    assert Cut(s, RegionWindow(FivePrime, 10)) == [];
  }

  /**
   * The walk moves past `site` for a track line with accession `id`: the
   * accessions differ as strings and `id` is not numerically smaller.
   * `key` is the accession's number, `float(id.replace("ENST", ""))`.
   */
  predicate Advances(key: string -> real, id: string, site: Site)
  {
    id != site.transcriptId && !(key(id) < key(site.transcriptId))
  }

  /**
   * The row where the walk from cursor `i` stops for a track line with
   * accession `id`: the first row at or after `i` that it does not move
   * past, or the end of the table.
   */
  function StopRow(sites: seq<Site>, key: string -> real, id: string, i: nat): (k: nat)
    ensures i <= k
    ensures i < |sites| ==> k <= |sites|
    ensures i >= |sites| ==> k == i
    ensures forall r :: i <= r < k ==> r < |sites| && Advances(key, id, sites[r])
    ensures k < |sites| ==> !Advances(key, id, sites[k])
    decreases |sites| - i
  {
    if i >= |sites| || !Advances(key, id, sites[i]) then i else StopRow(sites, key, id, i + 1)
  }

  /** The block at row `k` is well formed: abundance at least 1 and no longer than the rest of the table. */
  predicate BlockFits(sites: seq<Site>, k: nat)
    requires k < |sites|
  {
    1 <= sites[k].siteAbundance && k + sites[k].siteAbundance <= |sites|
  }

  /** The four region means of one track line, by region and anchor. */
  function RegionMeans(scores: seq<Score>): (Region, int) -> Score
  {
    (g: Region, p: int) => RegionMean(scores, g, p)
  }

  /** The four writes `parse_transcript` makes for row `r` with anchor `p`, in `parse_transcript`'s order;
   * `f` gives the mean of a region for an anchor. */
  function RowWrites(ls: Labels, r: nat, p: int, f: (Region, int) -> Score): (ws: seq<Write>)
    ensures |ws| == 4
    ensures forall k :: 0 <= k < |ws| ==> ws[k].row == r && ws[k].name in TrackColumns(ls)
  {
    [Write(Label(ls, Seed), r, f(Seed, p)),
     Write(Label(ls, Sup), r, f(Sup, p)),
     Write(Label(ls, ThreePrime), r, f(ThreePrime, p)),
     Write(Label(ls, FivePrime), r, f(FivePrime, p))]
  }

  /** A row's four writes leave, in the column of region `g`, that region's mean in that row and nothing else. */
  lemma RowWritesLatest(ls: Labels, r: nat, p: int, f: (Region, int) -> Score, g: Region, q: nat, prior: Score)
    requires Distinct(ls)
    ensures Latest(RowWrites(ls, r, p, f), Label(ls, g), q, prior)
            == if q == r then f(g, p) else prior
  {
    var ws := RowWrites(ls, r, p, f);
    var c := Label(ls, g);
    assert ws[..1][..0] == [] && Latest(ws[..1][..0], c, q, prior) == prior;
    assert ws[..2][..1] == ws[..1];
    assert ws[..3][..2] == ws[..2];
    assert ws[..4][..3] == ws[..3];
    assert ws[..4] == ws;
    var l1 := Latest(ws[..1], c, q, prior);
    var l2 := Latest(ws[..2], c, q, prior);
    var l3 := Latest(ws[..3], c, q, prior);
    assert l1 == if g == Seed && q == r then f(Seed, p) else prior;
    assert l2 == if g == Sup && q == r then f(Sup, p) else l1;
    assert l3 == if g == ThreePrime && q == r then f(ThreePrime, p) else l2;
  }

  /** The writes that score rows `lo` up to `hi`, one row after the other, from one track line. */
  function BlockWrites(sites: seq<Site>, ls: Labels, lo: nat, hi: nat, f: (Region, int) -> Score): (ws: seq<Write>)
    requires lo <= hi <= |sites|
    ensures InRows(ws, |sites|)
    ensures forall k :: 0 <= k < |ws| ==> lo <= ws[k].row < hi && ws[k].name in TrackColumns(ls)
    decreases hi - lo
  {
    if hi == lo then []
    else BlockWrites(sites, ls, lo, hi - 1, f) + RowWrites(ls, hi - 1, sites[hi - 1].bindingSitePos, f)
  }

  /** The columns after rows `lo` up to `hi` are scored from one track line. */
  function ScoreBlock(cols: Columns, sites: seq<Site>, ls: Labels, lo: nat, hi: nat, f: (Region, int) -> Score): (res: Columns)
    requires Shaped(cols, |sites|) && lo <= hi <= |sites|
    ensures Shaped(res, |sites|)
    ensures cols.Keys <= res.Keys <= cols.Keys + TrackColumns(ls)
  {
    ApplyKeys(cols, |sites|, BlockWrites(sites, ls, lo, hi, f), TrackColumns(ls));
    Apply(cols, |sites|, BlockWrites(sites, ls, lo, hi, f))
  }

  /** Scoring one more row is the block so far followed by that row's four writes. */
  lemma ScoreBlockExtends(cols: Columns, sites: seq<Site>, ls: Labels, lo: nat, hi: nat, f: (Region, int) -> Score)
    requires Shaped(cols, |sites|) && lo <= hi < |sites|
    ensures ScoreBlock(cols, sites, ls, lo, hi + 1, f)
            == Apply(ScoreBlock(cols, sites, ls, lo, hi, f), |sites|, RowWrites(ls, hi, sites[hi].bindingSitePos, f))
  {
    ApplyConcat(cols, |sites|, BlockWrites(sites, ls, lo, hi, f), RowWrites(ls, hi, sites[hi].bindingSitePos, f));
  }

  /**
   * Scoring rows `lo` up to `hi` gives each of those rows, in each region
   * column, the mean over its own anchor's window; every other row of
   * those columns reads as before.
   */
  lemma ScoreBlockCell(cols: Columns, sites: seq<Site>, ls: Labels, lo: nat, hi: nat, f: (Region, int) -> Score, g: Region, r: nat)
    requires Distinct(ls)
    requires Shaped(cols, |sites|) && lo <= hi <= |sites| && r < |sites|
    ensures ColumnOf(ScoreBlock(cols, sites, ls, lo, hi, f), |sites|, Label(ls, g))[r]
            == if lo <= r < hi then f(g, sites[r].bindingSitePos)
               else ColumnOf(cols, |sites|, Label(ls, g))[r]
  {
    ApplyCell(cols, |sites|, BlockWrites(sites, ls, lo, hi, f), Label(ls, g), r);
    BlockWritesLatest(sites, ls, lo, hi, f, g, r, ColumnOf(cols, |sites|, Label(ls, g))[r]);
  }

  lemma {:induction false} BlockWritesLatest(sites: seq<Site>, ls: Labels, lo: nat, hi: nat, f: (Region, int) -> Score, g: Region, r: nat, prior: Score)
    requires Distinct(ls)
    requires lo <= hi <= |sites| && r < |sites|
    ensures Latest(BlockWrites(sites, ls, lo, hi, f), Label(ls, g), r, prior)
            == if lo <= r < hi then f(g, sites[r].bindingSitePos) else prior
    decreases hi - lo
  {
    if lo < hi {
      var ws := BlockWrites(sites, ls, lo, hi - 1, f);
      var row := RowWrites(ls, hi - 1, sites[hi - 1].bindingSitePos, f);
      LatestConcat(ws, row, Label(ls, g), r, prior);
      BlockWritesLatest(sites, ls, lo, hi - 1, f, g, r, prior);
      RowWritesLatest(ls, hi - 1, sites[hi - 1].bindingSitePos, f, g, r, Latest(ws, Label(ls, g), r, prior));
    }
  }

  /** Scoring a block leaves every column that is not one of the track's four as it was. */
  lemma ScoreBlockFrame(cols: Columns, sites: seq<Site>, ls: Labels, lo: nat, hi: nat, f: (Region, int) -> Score, c: string)
    requires Shaped(cols, |sites|) && lo <= hi <= |sites| && c !in TrackColumns(ls)
    ensures var res := ScoreBlock(cols, sites, ls, lo, hi, f);
      (c in res <==> c in cols) && (c in cols ==> res[c] == cols[c])
  {
    ApplyFrame(cols, |sites|, BlockWrites(sites, ls, lo, hi, f), c);
  }

  /**
   * The end of the rows a block starting at `k` writes: none for an
   * abundance below 1, otherwise the block, cut short at the end of the table.
   */
  function BlockEnd(sites: seq<Site>, k: nat): (hi: nat)
    requires k < |sites|
    ensures k <= hi <= |sites|
    ensures sites[k].siteAbundance < 1 ==> hi == k
    ensures BlockFits(sites, k) ==> hi == k + sites[k].siteAbundance
    ensures 1 <= sites[k].siteAbundance && k + sites[k].siteAbundance > |sites| ==> hi == |sites|
  {
    var a := sites[k].siteAbundance;
    if a < 1 then k else if k + a <= |sites| then k + a else |sites|
  }

  /** What one call of `parse_transcript` leaves: whether it raised, the cursor it returns, and the columns. */
  datatype Step = Step(ok: bool, cursor: int, columns: Columns)

  /**
   * `parse_transcript(i, line.transcriptId, features, line.scores, track)`:
   * the cursor moves past every row the line's accession is numerically
   * not smaller than and differs from; at the end of the table the result
   * is -1; on a row with a numerically larger accession the line is skipped
   * and that row is returned; on a row with the same accession the block
   * of `site_abundance_6mer` rows starting there is scored and the block's
   * last row is returned. An abundance below 1 (the loop variable is never
   * bound) or a block past the end of the table (`iloc` fails) raises; the
   * rows written before that stay written.
   */
  function ParseStep(sites: seq<Site>, key: string -> real, i: nat, line: TrackLine, ls: Labels, cols: Columns): (s: Step)
    requires Shaped(cols, |sites|)
    ensures Shaped(s.columns, |sites|)
    ensures cols.Keys <= s.columns.Keys <= cols.Keys + TrackColumns(ls)
    ensures s.ok ==> -1 <= s.cursor < |sites|
    ensures s.ok && s.cursor != -1 ==> i <= s.cursor
    ensures s.ok && s.cursor == -1 ==> s.columns == cols
    ensures !s.ok ==> var k := StopRow(sites, key, line.transcriptId, i);
      k < |sites| && sites[k].transcriptId == line.transcriptId && !BlockFits(sites, k)
  {
    var k := StopRow(sites, key, line.transcriptId, i);
    if k >= |sites| then Step(true, -1, cols)
    else if sites[k].transcriptId != line.transcriptId then Step(true, k, cols)
    else
      Step(BlockFits(sites, k), k + sites[k].siteAbundance - 1, ScoreBlock(cols, sites, ls, k, BlockEnd(sites, k), RegionMeans(line.scores)))
  }

  /** The call returns -1, without an error and without writing, exactly when the walk runs off the end of the table. */
  lemma ParseStepFinished(sites: seq<Site>, key: string -> real, i: nat, line: TrackLine, ls: Labels, cols: Columns)
    requires Shaped(cols, |sites|)
    ensures var s := ParseStep(sites, key, i, line, ls, cols);
      s.ok && s.cursor == -1 <==> StopRow(sites, key, line.transcriptId, i) >= |sites|
    ensures var s := ParseStep(sites, key, i, line, ls, cols);
      s.ok && s.cursor == -1 ==> s.columns == cols
    ensures i >= |sites| ==> ParseStep(sites, key, i, line, ls, cols) == Step(true, -1, cols)
  {
  }

  /** A line whose accession is numerically smaller than the cursor row's is skipped: the cursor is returned unchanged. */
  lemma ParseStepSkips(sites: seq<Site>, key: string -> real, i: nat, line: TrackLine, ls: Labels, cols: Columns)
    requires Shaped(cols, |sites|)
    requires i < |sites| && line.transcriptId != sites[i].transcriptId
    requires key(line.transcriptId) < key(sites[i].transcriptId)
    ensures ParseStep(sites, key, i, line, ls, cols) == Step(true, i, cols)
  {
  }

  /**
   * A line whose accession differs from the cursor row's and is not
   * numerically smaller moves the cursor one row and is compared again:
   * the call behaves as the call from the next row, so the row is not written.
   */
  lemma ParseStepAdvances(sites: seq<Site>, key: string -> real, i: nat, line: TrackLine, ls: Labels, cols: Columns)
    requires Shaped(cols, |sites|)
    requires i < |sites| && line.transcriptId != sites[i].transcriptId
    requires !(key(line.transcriptId) < key(sites[i].transcriptId))
    ensures ParseStep(sites, key, i, line, ls, cols) == ParseStep(sites, key, i + 1, line, ls, cols)
  {
  }

  /** A cell after one call: the matched block's rows get the line's region means, every other cell is as before. */
  lemma ParseStepCell(sites: seq<Site>, key: string -> real, i: nat, line: TrackLine, ls: Labels, cols: Columns, g: Region, r: nat)
    requires Distinct(ls)
    requires Shaped(cols, |sites|) && r < |sites|
    ensures var k := StopRow(sites, key, line.transcriptId, i);
      var s := ParseStep(sites, key, i, line, ls, cols);
      ColumnOf(s.columns, |sites|, Label(ls, g))[r]
      == if k < |sites| && sites[k].transcriptId == line.transcriptId && k <= r < BlockEnd(sites, k)
         then RegionMean(line.scores, g, sites[r].bindingSitePos)
         else ColumnOf(cols, |sites|, Label(ls, g))[r]
  {
    var k := StopRow(sites, key, line.transcriptId, i);
    if k < |sites| && sites[k].transcriptId == line.transcriptId {
      ScoreBlockCell(cols, sites, ls, k, BlockEnd(sites, k), RegionMeans(line.scores), g, r);
    }
  }

  /** One call leaves every column other than the track's four as it was. */
  lemma ParseStepFrame(sites: seq<Site>, key: string -> real, i: nat, line: TrackLine, ls: Labels, cols: Columns, c: string)
    requires Shaped(cols, |sites|) && c !in TrackColumns(ls)
    ensures var s := ParseStep(sites, key, i, line, ls, cols);
      (c in s.columns <==> c in cols) && (c in cols ==> s.columns[c] == cols[c])
  {
    var k := StopRow(sites, key, line.transcriptId, i);
    if k < |sites| && sites[k].transcriptId == line.transcriptId {
      ScoreBlockFrame(cols, sites, ls, k, BlockEnd(sites, k), RegionMeans(line.scores), c);
    }
  }

  /**
   * On a string-equal match at row `k` with a well-formed block, rows `k`
   * to `k + abundance - 1` each get the four means of the same track line
   * over their own anchor's windows, no other row changes, and the call
   * returns the block's last row (not the row after it).
   */
  lemma ParseStepMatches(sites: seq<Site>, key: string -> real, i: nat, line: TrackLine, ls: Labels, cols: Columns, g: Region, r: nat)
    requires Distinct(ls)
    requires Shaped(cols, |sites|) && r < |sites|
    requires StopRow(sites, key, line.transcriptId, i) < |sites|
    requires sites[StopRow(sites, key, line.transcriptId, i)].transcriptId == line.transcriptId
    ensures var k := StopRow(sites, key, line.transcriptId, i);
      var s := ParseStep(sites, key, i, line, ls, cols);
      && s.ok == BlockFits(sites, k)
      && (s.ok ==> s.cursor == k + sites[k].siteAbundance - 1)
      && (s.ok ==> ColumnOf(s.columns, |sites|, Label(ls, g))[r]
                   == if k <= r < k + sites[k].siteAbundance then RegionMean(line.scores, g, sites[r].bindingSitePos)
                      else ColumnOf(cols, |sites|, Label(ls, g))[r])
  {
    ParseStepCell(sites, key, i, line, ls, cols, g, r);
  }

  /** What a walk over a whole track leaves: whether it raised, and the columns. */
  datatype Outcome = Outcome(ok: bool, columns: Columns)

  /**
   * The loop of `compute_conservation` over one track's lines from cursor
   * `cursor`: each line is handed to `parse_transcript`, whose result is the
   * next cursor; the loop stops when it returns -1 and ends at an error.
   */
  function Walk(sites: seq<Site>, key: string -> real, lines: seq<TrackLine>, ls: Labels, cursor: nat, cols: Columns): (o: Outcome)
    requires Shaped(cols, |sites|)
    ensures Shaped(o.columns, |sites|)
    ensures cols.Keys <= o.columns.Keys <= cols.Keys + TrackColumns(ls)
    decreases |lines|
  {
    if lines == [] then Outcome(true, cols)
    else
      var s := ParseStep(sites, key, cursor, lines[0], ls, cols);
      if !s.ok then Outcome(false, s.columns)
      else if s.cursor == -1 then Outcome(true, s.columns)
      else Walk(sites, key, lines[1..], ls, s.cursor, s.columns)
  }

  /** Row `k` is the first row of its transcript's run: the first row of the table, or the row before it is on another transcript. */
  predicate BlockStart(sites: seq<Site>, k: nat)
    requires k < |sites|
  {
    k == 0 || sites[k - 1].transcriptId != sites[k].transcriptId
  }

  /** The `site_abundance_6mer` rows counted from the first row of each transcript's run stay on that transcript. */
  predicate BlocksShareAccession(sites: seq<Site>)
  {
    forall k, r :: 0 <= k <= r < |sites| && r < k + sites[k].siteAbundance && BlockStart(sites, k) ==> sites[r].transcriptId == sites[k].transcriptId
  }

  /** No two lines of a track carry the same accession. */
  predicate DistinctAccessions(lines: seq<TrackLine>)
  {
    forall s, t :: 0 <= s < t < |lines| ==> lines[s].transcriptId != lines[t].transcriptId
  }

  /**
   * A cursor the walk over `lines` can resume from: past the table, on the
   * first row of a transcript's run, or on a row whose accession none of
   * the lines carries.
   */
  predicate CursorReady(sites: seq<Site>, lines: seq<TrackLine>, cursor: nat)
  {
    || cursor >= |sites|
    || BlockStart(sites, cursor)
    || forall t :: 0 <= t < |lines| ==> lines[t].transcriptId != sites[cursor].transcriptId
  }

  /** From a ready cursor, a line can only match on the first row of a transcript's run. */
  lemma MatchAtBlockStart(sites: seq<Site>, key: string -> real, lines: seq<TrackLine>, cursor: nat)
    requires lines != [] && CursorReady(sites, lines, cursor)
    ensures var k := StopRow(sites, key, lines[0].transcriptId, cursor);
      k < |sites| && sites[k].transcriptId == lines[0].transcriptId ==> BlockStart(sites, k)
  {
    var k := StopRow(sites, key, lines[0].transcriptId, cursor);
    if cursor < k < |sites| {
      assert Advances(key, lines[0].transcriptId, sites[k - 1]);
    }
  }

  /**
   * Over a table whose runs share their accession and a track whose lines
   * carry distinct accessions, the cursor one call returns is again ready
   * for the remaining lines.
   */
  lemma StepKeepsReady(sites: seq<Site>, key: string -> real, lines: seq<TrackLine>, ls: Labels, cursor: nat, cols: Columns)
    requires Shaped(cols, |sites|)
    requires lines != [] && CursorReady(sites, lines, cursor)
    requires BlocksShareAccession(sites) && DistinctAccessions(lines)
    ensures var s := ParseStep(sites, key, cursor, lines[0], ls, cols);
      s.ok && s.cursor != -1 ==> CursorReady(sites, lines[1..], s.cursor)
  {
    var id := lines[0].transcriptId;
    var k := StopRow(sites, key, id, cursor);
    var s := ParseStep(sites, key, cursor, lines[0], ls, cols);
    assert forall t :: 0 <= t < |lines[1..]| ==> lines[1..][t] == lines[t + 1];
    if k < |sites| && sites[k].transcriptId != id && cursor < k {
      assert Advances(key, id, sites[k - 1]) && !Advances(key, id, sites[k]);
    } else if k < |sites| && sites[k].transcriptId == id && s.ok {
      MatchAtBlockStart(sites, key, lines, cursor);
      var last := k + sites[k].siteAbundance - 1;
      assert sites[last].transcriptId == sites[k].transcriptId;
      assert forall t :: 0 <= t < |lines[1..]| ==> lines[1..][t].transcriptId != sites[last].transcriptId by {
        forall t | 0 <= t < |lines[1..]|
          ensures lines[1..][t].transcriptId != sites[last].transcriptId
        {
          assert lines[0].transcriptId != lines[t + 1].transcriptId;
        }
      }
    }
  }

  /** A walk writes only the track's four columns. */
  lemma {:induction false} WalkFrame(sites: seq<Site>, key: string -> real, lines: seq<TrackLine>, ls: Labels, cursor: nat, cols: Columns, c: string)
    requires Shaped(cols, |sites|) && c !in TrackColumns(ls)
    ensures var o := Walk(sites, key, lines, ls, cursor, cols);
      (c in o.columns <==> c in cols) && (c in cols ==> o.columns[c] == cols[c])
    decreases |lines|
  {
    if lines != [] {
      var s := ParseStep(sites, key, cursor, lines[0], ls, cols);
      ParseStepFrame(sites, key, cursor, lines[0], ls, cols, c);
      if s.ok && s.cursor != -1 {
        WalkFrame(sites, key, lines[1..], ls, s.cursor, s.columns, c);
      }
    }
  }

  /**
   * Soundness of the merge-walk: every cell of the track's four columns
   * either keeps its prior value or is the mean, over that row's own
   * window, of some track line whose accession equals the row's.
   */
  lemma {:induction false} WalkSound(sites: seq<Site>, key: string -> real, lines: seq<TrackLine>, ls: Labels, cursor: nat, cols: Columns, g: Region, r: nat)
    requires Distinct(ls)
    requires Shaped(cols, |sites|) && r < |sites|
    requires BlocksShareAccession(sites) && DistinctAccessions(lines) && CursorReady(sites, lines, cursor)
    ensures var o := Walk(sites, key, lines, ls, cursor, cols);
      var cell := ColumnOf(o.columns, |sites|, Label(ls, g))[r];
      || cell == ColumnOf(cols, |sites|, Label(ls, g))[r]
      || exists t :: 0 <= t < |lines| && lines[t].transcriptId == sites[r].transcriptId
                     && cell == RegionMean(lines[t].scores, g, sites[r].bindingSitePos)
    decreases |lines|
  {
    if lines != [] {
      var line := lines[0];
      var s := ParseStep(sites, key, cursor, line, ls, cols);
      var k := StopRow(sites, key, line.transcriptId, cursor);
      var col := Label(ls, g);
      var mid := ColumnOf(s.columns, |sites|, col)[r];
      ParseStepCell(sites, key, cursor, line, ls, cols, g, r);
      MatchAtBlockStart(sites, key, lines, cursor);
      assert mid == ColumnOf(cols, |sites|, col)[r]
          || (line.transcriptId == sites[r].transcriptId && mid == RegionMean(line.scores, g, sites[r].bindingSitePos));
      if s.ok && s.cursor != -1 {
        var o := Walk(sites, key, lines[1..], ls, s.cursor, s.columns);
        StepKeepsReady(sites, key, lines, ls, cursor, cols);
        assert DistinctAccessions(lines[1..]) by {
          assert forall t :: 0 <= t < |lines[1..]| ==> lines[1..][t] == lines[t + 1];
        }
        WalkSound(sites, key, lines[1..], ls, s.cursor, s.columns, g, r);
        var cell := ColumnOf(o.columns, |sites|, col)[r];
        if cell != mid {
          var t :| 0 <= t < |lines[1..]| && lines[1..][t].transcriptId == sites[r].transcriptId
                   && cell == RegionMean(lines[1..][t].scores, g, sites[r].bindingSitePos);
          assert lines[t + 1] == lines[1..][t];
        }
      }
    }
  }

  /** The name a track file's columns carry: `Path(file_name).stem`. */
  function TrackName(file: TrackFile): string
  {
    Names.Stem(file.fileName)
  }

  /** Before a track is walked, only its seed and supplementary columns are (re)set to 0.0 in every row. */
  function Defaults(cols: Columns, n: nat, ls: Labels): (res: Columns)
    requires Shaped(cols, n)
    ensures Shaped(res, n)
    ensures res.Keys == cols.Keys + {ls.seed, ls.sup}
    ensures forall r :: 0 <= r < n ==> res[ls.seed][r] == Num(0.0) && res[ls.sup][r] == Num(0.0)
    ensures forall c :: c in cols && c != ls.seed && c != ls.sup ==> res[c] == cols[c]
  {
    cols[ls.seed := Uniform(n, Num(0.0))][ls.sup := Uniform(n, Num(0.0))]
  }

  /** One track file processed by `compute_conservation`: default columns, then the walk from row 0. */
  function AlignTrackSpec(sites: seq<Site>, key: string -> real, file: TrackFile, cols: Columns): (o: Outcome)
    requires Shaped(cols, |sites|)
    ensures Shaped(o.columns, |sites|)
    ensures var ls := TrackLabels(TrackName(file));
      cols.Keys + {ls.seed, ls.sup} <= o.columns.Keys <= cols.Keys + TrackColumns(ls)
  {
    var ls := TrackLabels(TrackName(file));
    Walk(sites, key, file.lines, ls, 0, Defaults(cols, |sites|, ls))
  }

  /**
   * After a track file, each row's seed and supplementary cells are either
   * the default 0.0, never the missing marker, or the mean of its window over
   * a line of the track with the row's accession.
   */
  lemma DefaultsOrMatched(sites: seq<Site>, key: string -> real, file: TrackFile, cols: Columns, g: Region, r: nat)
    requires Shaped(cols, |sites|) && r < |sites|
    requires BlocksShareAccession(sites) && DistinctAccessions(file.lines)
    requires g == Seed || g == Sup
    ensures var o := AlignTrackSpec(sites, key, file, cols);
      var cell := ColumnOf(o.columns, |sites|, Label(TrackLabels(TrackName(file)), g))[r];
      || cell == Num(0.0)
      || exists t :: 0 <= t < |file.lines| && file.lines[t].transcriptId == sites[r].transcriptId
                     && cell == RegionMean(file.lines[t].scores, g, sites[r].bindingSitePos)
  {
    var ls := TrackLabels(TrackName(file));
    WalkSound(sites, key, file.lines, ls, 0, Defaults(cols, |sites|, ls), g, r);
  }

  /** `compute_conservation`'s loop over the track files of the track directory, in listing order. */
  function ConserveSpec(sites: seq<Site>, key: string -> real, files: seq<TrackFile>, cols: Columns): (o: Outcome)
    requires Shaped(cols, |sites|)
    ensures Shaped(o.columns, |sites|)
    ensures cols.Keys <= o.columns.Keys
    ensures o.ok ==> forall t :: 0 <= t < |files| ==> TrackLabels(TrackName(files[t])).seed in o.columns
    ensures o.ok ==> forall t :: 0 <= t < |files| ==> TrackLabels(TrackName(files[t])).sup in o.columns
    decreases |files|
  {
    if files == [] then Outcome(true, cols)
    else
      var o := AlignTrackSpec(sites, key, files[0], cols);
      assert forall t :: 1 <= t < |files| ==> files[t] == files[1..][t - 1];
      if !o.ok then o else ConserveSpec(sites, key, files[1..], o.columns)
  }

  /** The columns of all the tracks of a run of track files. */
  function AllTrackColumns(files: seq<TrackFile>): (cs: set<string>)
    ensures forall t :: 0 <= t < |files| ==> TrackColumns(TrackLabels(TrackName(files[t]))) <= cs
    decreases |files|
  {
    if files == [] then {}
    else
      assert forall t :: 1 <= t < |files| ==> files[t] == files[1..][t - 1];
      TrackColumns(TrackLabels(TrackName(files[0]))) + AllTrackColumns(files[1..])
  }

  /**
   * Processing a run of track files leaves every column that is none of
   * the tracks' four as it was: it exists afterwards exactly when it did
   * before, with the same contents.
   */
  lemma {:induction false} ConserveFrame(sites: seq<Site>, key: string -> real, files: seq<TrackFile>, cols: Columns, c: string)
    requires Shaped(cols, |sites|) && c !in AllTrackColumns(files)
    ensures var o := ConserveSpec(sites, key, files, cols);
      (c in o.columns <==> c in cols) && (c in cols ==> o.columns[c] == cols[c])
    decreases |files|
  {
    if files != [] {
      var ls := TrackLabels(TrackName(files[0]));
      var d := Defaults(cols, |sites|, ls);
      WalkFrame(sites, key, files[0].lines, ls, 0, d, c);
      var o := AlignTrackSpec(sites, key, files[0], cols);
      if o.ok {
        ConserveFrame(sites, key, files[1..], o.columns, c);
      }
    }
  }

  /**
   * The four cell writes for row `r`: the seed, supplementary, three-prime
   * and five-prime means, in that order; `f` gives the mean of a region for
   * an anchor.
   */
  method PutRow(features: Features, r: nat, ls: Labels, f: (Region, int) -> Score)
    requires features.Valid() && r < |features.sites|
    modifies features
    ensures features.Valid()
    ensures features.columns == Apply(old(features.columns), |features.sites|, RowWrites(ls, r, features.sites[r].bindingSitePos, f))
  {
    var p := features.sites[r].bindingSitePos;
    ghost var n := |features.sites|;
    ghost var ws := RowWrites(ls, r, p, f);
    ghost var c0 := features.columns;
    assert ws[..0] == [] && ws[..4] == ws;
    features.Put(r, Label(ls, Seed), f(Seed, p));
    ApplyPrefix(c0, n, ws, 0, c0, features.columns);
    ghost var c1 := features.columns;
    features.Put(r, Label(ls, Sup), f(Sup, p));
    ApplyPrefix(c0, n, ws, 1, c1, features.columns);
    ghost var c2 := features.columns;
    features.Put(r, Label(ls, ThreePrime), f(ThreePrime, p));
    ApplyPrefix(c0, n, ws, 2, c2, features.columns);
    ghost var c3 := features.columns;
    features.Put(r, Label(ls, FivePrime), f(FivePrime, p));
    ApplyPrefix(c0, n, ws, 3, c3, features.columns);
  }

  /**
   * The scoring half of `parse_transcript` at the matched row `k`: the
   * `site_abundance_6mer` rows from `k` on get their four means row by row;
   * a row past the end of the table raises, and so does an abundance below 1.
   */
  method ScoreRows(features: Features, k: nat, ls: Labels, f: (Region, int) -> Score) returns (ok: bool)
    requires features.Valid() && k < |features.sites|
    modifies features
    ensures features.Valid()
    ensures ok == BlockFits(features.sites, k)
    ensures features.columns == ScoreBlock(old(features.columns), features.sites, ls, k, BlockEnd(features.sites, k), f)
  {
    var sites := features.sites;
    ghost var start := features.columns;
    var abundance := sites[k].siteAbundance;
    var j := 0;
    while j < abundance
      invariant 0 <= j && k + j <= |sites|
      invariant j == 0 || j <= abundance
      invariant features.Valid()
      invariant features.columns == ScoreBlock(start, sites, ls, k, k + j, f)
    {
      if k + j >= |sites| {
        return false;
      }
      ScoreBlockExtends(start, sites, ls, k, k + j, f);
      PutRow(features, k + j, ls, f);
      j := j + 1;
    }
    return abundance >= 1;
  }

  /**
   * `parse_transcript` with its recursion written as a loop over an
   * explicit cursor: the cursor moves past rows until the end of the
   * table, a numerically larger accession or the same accession; then the
   * matched block is scored.
   */
  method ParseTranscript(features: Features, i: nat, line: TrackLine, ls: Labels, key: string -> real)
    returns (ok: bool, next: int)
    requires features.Valid()
    modifies features
    ensures features.Valid()
    ensures var s := ParseStep(features.sites, key, i, line, ls, old(features.columns));
      ok == s.ok && features.columns == s.columns && (ok ==> next == s.cursor)
  {
    var sites := features.sites;
    var cursor := i;
    while true
      invariant i <= cursor
      invariant StopRow(sites, key, line.transcriptId, cursor) == StopRow(sites, key, line.transcriptId, i)
      invariant features.columns == old(features.columns)
      decreases |sites| - cursor
    {
      if cursor >= |sites| {
        return true, -1;
      }
      var current := sites[cursor].transcriptId;
      if line.transcriptId == current {
        break;
      }
      if key(line.transcriptId) < key(current) {
        return true, cursor;
      }
      cursor := cursor + 1;
    }
    ok := ScoreRows(features, cursor, ls, RegionMeans(line.scores));
    next := cursor + sites[cursor].siteAbundance - 1;
  }

  /** One track file of `compute_conservation`: reset the two default columns, then walk the lines from row 0. */
  method AlignTrack(features: Features, file: TrackFile, key: string -> real) returns (ok: bool)
    requires features.Valid()
    modifies features
    ensures features.Valid()
    ensures var o := AlignTrackSpec(features.sites, key, file, old(features.columns));
      ok == o.ok && features.columns == o.columns
  {
    var sites := features.sites;
    var ls := TrackLabels(TrackName(file));
    features.Assign(ls.seed, Num(0.0));
    features.Assign(ls.sup, Num(0.0));
    var rowIdx: nat := 0;
    var t := 0;
    while t < |file.lines|
      invariant t <= |file.lines|
      invariant features.Valid()
      invariant Walk(sites, key, file.lines[t..], ls, rowIdx, features.columns)
                == AlignTrackSpec(sites, key, file, old(features.columns))
    {
      assert file.lines[t..][1..] == file.lines[t + 1..];
      var stepOk, next := ParseTranscript(features, rowIdx, file.lines[t], ls, key);
      if !stepOk {
        return false;
      }
      if next == -1 {
        return true;
      }
      rowIdx := next;
      t := t + 1;
    }
    return true;
  }

  /** `compute_conservation` for one candidate table: every track file in turn; an error ends the table's processing. */
  method ComputeConservation(features: Features, files: seq<TrackFile>, key: string -> real) returns (ok: bool)
    requires features.Valid()
    modifies features
    ensures features.Valid()
    ensures var o := ConserveSpec(features.sites, key, files, old(features.columns));
      ok == o.ok && features.columns == o.columns
  {
    var f := 0;
    while f < |files|
      invariant f <= |files|
      invariant features.Valid()
      invariant ConserveSpec(features.sites, key, files[f..], features.columns)
                == ConserveSpec(features.sites, key, files, old(features.columns))
    {
      assert files[f..][1..] == files[f + 1..];
      var trackOk := AlignTrack(features, files[f], key);
      if !trackOk {
        return false;
      }
      f := f + 1;
    }
    return true;
  }
}
