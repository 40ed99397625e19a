/**
 * The shape aligner: a hash-join of shape reactivity rows onto the
 * candidate-site table by unversioned transcript accession. Every shape row
 * scores each candidate row of its transcript, in the read's coordinates,
 * over a seed window and the supplementary window right after it.
 */
module ShapeParser {
  import opened Scores
  import opened Table
  import Names

  /**
   * One tab-separated row of a shape file, already split: the versioned
   * accession (`row[0]`), the read length (`int(row[1])`), one metadata
   * field (`row[2]`) and one reactivity token per base (`row[3:]`), where
   * the token "NULL" is `Missing`.
   */
  datatype ShapeRecord = ShapeRecord(accession: string, readLength: int, metadata: string, scores: seq<Score>)

  /** A shape row as the aligner uses it: unversioned accession, read length and reactivities. */
  datatype ShapeRow = ShapeRow(transcriptId: string, readLength: int, scores: seq<Score>)

  /** One shape data set: its name (the lower-cased file stem) and its rows in file order. */
  datatype ShapeSource = ShapeSource(name: string, records: seq<ShapeRecord>)

  /** The two scored windows of a binding site. */
  datatype Region = Seed | Sup

  /** The two columns one shape source writes. */
  datatype Labels = Labels(seed: string, sup: string)

  function Label(ls: Labels, g: Region): string
  {
    match g
    case Seed => ls.seed
    case Sup => ls.sup
  }

  /** The columns of the source called `name`: the name followed by "_seed" and "_sup". */
  function SourceLabels(name: string): (ls: Labels)
    ensures ls.seed != ls.sup
    ensures |ls.seed| == |name| + 5 && ls.seed[..|name|] == name && ls.seed[|name|..] == "_seed"
    ensures |ls.sup| == |name| + 4 && ls.sup[..|name|] == name && ls.sup[|name|..] == "_sup"
  {
    Labels(name + "_seed", name + "_sup")
  }

  /** `Path(file_name).stem.lower()`: the name a shape file's columns carry. */
  function SourceName(fileName: string): (name: string)
    ensures |name| == |Names.Stem(fileName)| <= |fileName|
    ensures forall k :: 0 <= k < |name| ==> name[k] == Names.LowerChar(Names.Stem(fileName)[k])
    ensures forall k :: 0 <= k < |name| ==> !('A' <= name[k] <= 'Z')
  {
    Names.LowerIdempotent(Names.Stem(fileName));
    Names.Lower(Names.Stem(fileName))
  }

  /**
   * `id.split(".")[0]`: the accession without its version, everything
   * before the first '.'.
   */
  function Unversioned(id: string): (r: string)
    ensures r <= id
    ensures forall k :: 0 <= k < |r| ==> r[k] != '.'
    ensures |r| < |id| ==> id[|r|] == '.'
  {
    if id == [] || id[0] == '.' then [] else [id[0]] + Unversioned(id[1..])
  }

  /** Dropping the version twice is dropping it once; an accession without a '.' is its own unversioned form. */
  lemma {:induction false} UnversionedIdempotent(id: string)
    ensures Unversioned(Unversioned(id)) == Unversioned(id)
    ensures (forall k :: 0 <= k < |id| ==> id[k] != '.') ==> Unversioned(id) == id
  {
    if id != [] && id[0] != '.' {
      UnversionedIdempotent(id[1..]);
      assert ([id[0]] + Unversioned(id[1..]))[1..] == Unversioned(id[1..]);
      if forall k :: 0 <= k < |id| ==> id[k] != '.' {
        assert forall k :: 0 <= k < |id[1..]| ==> id[1..][k] == id[k + 1];
        assert [id[0]] + id[1..] == id;
      }
    }
  }

  lemma UnversionedExample()
    ensures Unversioned("ENST01.4") == "ENST01"
    ensures Unversioned("ENST01") == "ENST01"
  {
    assert Unversioned(".4") == [];
    assert "1.4"[1..] == ".4" && Unversioned("1.4") == "1";
    assert "01.4"[1..] == "1.4" && Unversioned("01.4") == "01";
    assert "T01.4"[1..] == "01.4" && Unversioned("T01.4") == "T01";
    assert "ST01.4"[1..] == "T01.4" && Unversioned("ST01.4") == "ST01";
    assert "NST01.4"[1..] == "ST01.4" && Unversioned("NST01.4") == "NST01";
    assert "ENST01.4"[1..] == "NST01.4";
    UnversionedIdempotent("ENST01");
  }

  /** The row a shape record describes: `row[2]` is not read. */
  function ParseRecord(rec: ShapeRecord): (row: ShapeRow)
    ensures row.transcriptId == Unversioned(rec.accession)
    ensures row.readLength == rec.readLength && row.scores == rec.scores
  {
    ShapeRow(Unversioned(rec.accession), rec.readLength, rec.scores)
  }

  /** Two records that differ only in the metadata field give the same row. */
  lemma MetadataIgnored(a: ShapeRecord, b: ShapeRecord)
    requires a.accession == b.accession && a.readLength == b.readLength && a.scores == b.scores
    ensures ParseRecord(a) == ParseRecord(b)
  {
  }

  /**
   * The window of a region in read coordinates for the UTR offset `offset`
   * and the 1-based anchor `p`, as `_score_target` derives it: the seed starts
   * two bases before the anchor and spans 8; the supplementary window starts
   * where the seed ends and spans 12.
   */
  function ShapeWindow(g: Region, offset: int, p: int): (w: Window)
    ensures g == Seed ==> w.start == offset + p - 2 && w.stop - w.start == 8
    ensures g == Sup ==> w.start == offset + p + 6 && w.stop - w.start == 12
  {
    var targetStart := offset + p - 2;
    var targetEnd := targetStart + 8;
    match g
    case Seed => Window(targetStart, targetEnd)
    case Sup => Window(targetEnd, targetEnd + 12)
  }

  /**
   * Where the site's 3' UTR starts in the read, `read_length - X3_utr_length`:
   * the UTR is the last `X3_utr_length` positions of the read.
   */
  function Offset(row: ShapeRow, site: Site): (off: int)
    ensures off + site.utrLength == row.readLength
  {
    row.readLength - site.utrLength
  }

  /** The reactivities with every "NULL" read as 0. */
  function Zeroed(raw: seq<Score>): (xs: seq<real>)
    ensures |xs| == |raw|
    ensures forall k :: 0 <= k < |raw| ==> xs[k] == if raw[k].Num? then raw[k].value else 0.0
  {
    seq(|raw|, k requires 0 <= k < |raw| => if raw[k].Num? then raw[k].value else 0.0)
  }

  /** The mean reactivity over a window; an empty window has none. A "NULL" counts as 0 and never makes the mean missing. */
  function WindowMean(raw: seq<Score>): (m: Option<real>)
    ensures m.None? <==> raw == []
    ensures m.Some? ==> m.value * |raw| as real == Sum(Zeroed(raw))
  {
    if raw == [] then None else Some(Mean(Zeroed(raw)))
  }

  /** The mean of region `g` of the shape row for the candidate site `site`. */
  function TargetMean(row: ShapeRow, site: Site, g: Region): Option<real>
  {
    WindowMean(Cut(row.scores, ShapeWindow(g, Offset(row, site), site.bindingSitePos)))
  }

  /** The seed and supplementary windows are adjacent: in range they cut one stretch of 20 bases. */
  lemma SeedThenSup(scores: seq<Score>, offset: int, p: int)
    requires 0 <= offset + p - 2
    ensures ShapeWindow(Seed, offset, p).stop == ShapeWindow(Sup, offset, p).start
    ensures Cut(scores, ShapeWindow(Seed, offset, p)) + Cut(scores, ShapeWindow(Sup, offset, p))
            == Slice(scores, offset + p - 2, offset + p + 18)
    ensures offset + p + 18 <= |scores| ==>
      |Cut(scores, ShapeWindow(Seed, offset, p))| == 8 && |Cut(scores, ShapeWindow(Sup, offset, p))| == 12
  {
    SliceSplit(scores, offset + p - 2, offset + p + 6, offset + p + 18);
  }

  /** Reading "NULL" as 0: a window with a "NULL" has the mean of the same window holding 0 there. */
  lemma NullIsZero(raw: seq<Score>, k: nat)
    requires k < |raw| && raw[k].Missing?
    ensures WindowMean(raw) == WindowMean(raw[k := Num(0.0)])
  {
    assert Zeroed(raw) == Zeroed(raw[k := Num(0.0)]);
  }

  /** A non-empty window of nothing but "NULL" has mean 0, not a missing mean. */
  lemma AllNullIsZero(raw: seq<Score>)
    requires raw != [] && forall k :: 0 <= k < |raw| ==> raw[k].Missing?
    ensures WindowMean(raw) == Some(0.0)
  {
    SumBounds(Zeroed(raw), 0.0, 0.0);
  }

  /** The seed and supplementary means a shape row gives each candidate site. */
  type Means = (Site, Region) -> Option<real>

  function TargetMeans(row: ShapeRow): Means
  {
    (site: Site, g: Region) => TargetMean(row, site, g)
  }

  /** The write `_score_target` makes for region `g` of candidate row `r`: the window's mean, when the window is non-empty. */
  function RegionWrite(site: Site, r: nat, f: Means, ls: Labels, g: Region): (ws: seq<Write>)
    ensures |ws| <= 1
    ensures forall k :: 0 <= k < |ws| ==> ws[k].row == r && ws[k].name == Label(ls, g)
  {
    if f(site, g).Some? then [Write(Label(ls, g), r, Num(f(site, g).value))] else []
  }

  /**
   * The writes `_score_target` makes for candidate row `r` on site `site`,
   * `f` giving the window means: the seed write, then the supplementary one.
   */
  function TargetWrites(site: Site, r: nat, f: Means, ls: Labels): (ws: seq<Write>)
    ensures |ws| <= 2
    ensures forall k :: 0 <= k < |ws| ==> ws[k].row == r && (ws[k].name == ls.seed || ws[k].name == ls.sup)
  {
    RegionWrite(site, r, f, ls, Seed) + RegionWrite(site, r, f, ls, Sup)
  }

  /** A cell after `_score_target`: its own row gets the window's mean if the window is non-empty, and it keeps any other value. */
  lemma TargetWritesLatest(site: Site, r: nat, f: Means, ls: Labels, g: Region, q: nat, prior: Score)
    requires ls.seed != ls.sup
    ensures Latest(TargetWrites(site, r, f, ls), Label(ls, g), q, prior)
            == if q == r && f(site, g).Some? then Num(f(site, g).value) else prior
  {
    var a := RegionWrite(site, r, f, ls, Seed);
    var b := RegionWrite(site, r, f, ls, Sup);
    LatestConcat(a, b, Label(ls, g), q, prior);
    if a != [] { assert a[..0] == []; }
    if b != [] { assert b[..0] == []; }
  }

  /** The accessions of the candidate rows without versions: `features["ensembl_transcript_id_version"].str.split(".").str[0]`. */
  function TargetIds(sites: seq<Site>): (ids: seq<string>)
    ensures |ids| == |sites|
    ensures forall r :: 0 <= r < |sites| ==> ids[r] == Unversioned(sites[r].transcriptId)
  {
    seq(|sites|, r requires 0 <= r < |sites| => Unversioned(sites[r].transcriptId))
  }

  /**
   * The writes `_parse_row` makes for a shape row with unversioned
   * accession `id` and means `f` on the candidate rows before `upTo`: every
   * matching row in index order.
   */
  function MatchWrites(sites: seq<Site>, ids: seq<string>, id: string, f: Means, ls: Labels, upTo: nat): (ws: seq<Write>)
    requires |ids| == |sites| && upTo <= |sites|
    ensures InRows(ws, |sites|)
    ensures forall k :: 0 <= k < |ws| ==> ws[k].row < upTo && (ws[k].name == ls.seed || ws[k].name == ls.sup)
  {
    if upTo == 0 then []
    else
      var r := upTo - 1;
      MatchWrites(sites, ids, id, f, ls, r) + (if ids[r] == id then TargetWrites(sites[r], r, f, ls) else [])
  }

  /**
   * One shape row scores every candidate row whose unversioned accession is
   * the row's (zero, one or many of them), each with its own anchor, and
   * leaves every other row as it was.
   */
  lemma {:induction false} MatchWritesLatest(sites: seq<Site>, ids: seq<string>, id: string, f: Means, ls: Labels, upTo: nat, g: Region, q: nat, prior: Score)
    requires |ids| == |sites| && upTo <= |sites| && q < |sites| && ls.seed != ls.sup
    ensures Latest(MatchWrites(sites, ids, id, f, ls, upTo), Label(ls, g), q, prior)
            == if q < upTo && ids[q] == id && f(sites[q], g).Some? then Num(f(sites[q], g).value) else prior
  {
    if upTo > 0 {
      var r := upTo - 1;
      var before := MatchWrites(sites, ids, id, f, ls, r);
      var here := if ids[r] == id then TargetWrites(sites[r], r, f, ls) else [];
      LatestConcat(before, here, Label(ls, g), q, prior);
      MatchWritesLatest(sites, ids, id, f, ls, r, g, q, prior);
      var mid := Latest(before, Label(ls, g), q, prior);
      if ids[r] == id {
        TargetWritesLatest(sites[r], r, f, ls, g, q, mid);
      } else {
        assert Latest(here, Label(ls, g), q, mid) == mid;
      }
    }
  }

  /** The writes of `parse_shape_source`'s loop over the records, after the two columns are reset. */
  function SourceWrites(sites: seq<Site>, ids: seq<string>, records: seq<ShapeRecord>, ls: Labels): (ws: seq<Write>)
    requires |ids| == |sites|
    ensures InRows(ws, |sites|)
    ensures forall k :: 0 <= k < |ws| ==> ws[k].name == ls.seed || ws[k].name == ls.sup
    decreases |records|
  {
    if records == [] then []
    else
      var last := records[|records| - 1];
      var row := ParseRecord(last);
      SourceWrites(sites, ids, records[..|records| - 1], ls) + MatchWrites(sites, ids, row.transcriptId, TargetMeans(row), ls, |sites|)
  }

  /**
   * The value a candidate site's column for region `g` holds after a
   * source, stated on the records alone: the mean over the last record
   * whose unversioned accession is the site's and whose window is
   * non-empty, or missing ("NA") when there is none.
   */
  function SourceCell(records: seq<ShapeRecord>, site: Site, g: Region): (cell: Score)
    ensures cell.Missing? <==> forall t :: 0 <= t < |records| ==>
              ParseRecord(records[t]).transcriptId != Unversioned(site.transcriptId)
              || TargetMean(ParseRecord(records[t]), site, g).None?
    decreases |records|
  {
    if records == [] then Missing
    else
      var row := ParseRecord(records[|records| - 1]);
      var m := TargetMean(row, site, g);
      if row.transcriptId == Unversioned(site.transcriptId) && m.Some? then Num(m.value)
      else SourceCell(records[..|records| - 1], site, g)
  }

  /** The writes of the whole source leave each cell with the source's value for it, or what it held before. */
  lemma {:induction false} SourceWritesLatest(sites: seq<Site>, records: seq<ShapeRecord>, ls: Labels, g: Region, r: nat, prior: Score)
    requires r < |sites| && ls.seed != ls.sup
    ensures Latest(SourceWrites(sites, TargetIds(sites), records, ls), Label(ls, g), r, prior)
            == if SourceCell(records, sites[r], g).Missing? then prior else SourceCell(records, sites[r], g)
    decreases |records|
  {
    if records != [] {
      var ids := TargetIds(sites);
      var before := SourceWrites(sites, ids, records[..|records| - 1], ls);
      var row := ParseRecord(records[|records| - 1]);
      LatestConcat(before, MatchWrites(sites, ids, row.transcriptId, TargetMeans(row), ls, |sites|), Label(ls, g), r, prior);
      SourceWritesLatest(sites, records[..|records| - 1], ls, g, r, prior);
      MatchWritesLatest(sites, ids, row.transcriptId, TargetMeans(row), ls, |sites|, g, r, Latest(before, Label(ls, g), r, prior));
    }
  }

  /** `features[name + "_seed"] = "NA"` and `features[name + "_sup"] = "NA"`. */
  function Defaults(cols: Columns, n: nat, ls: Labels): (res: Columns)
    requires Shaped(cols, n)
    ensures Shaped(res, n)
    ensures res.Keys == cols.Keys + {ls.seed, ls.sup}
    ensures forall r :: 0 <= r < n ==> res[ls.seed][r] == Missing && res[ls.sup][r] == Missing
    ensures forall c :: c in cols && c != ls.seed && c != ls.sup ==> res[c] == cols[c]
  {
    cols[ls.seed := Uniform(n, Missing)][ls.sup := Uniform(n, Missing)]
  }

  /** The columns after `parse_shape_source`. */
  function ParseSourceSpec(sites: seq<Site>, source: ShapeSource, cols: Columns): (res: Columns)
    requires Shaped(cols, |sites|)
    ensures Shaped(res, |sites|)
    ensures res.Keys == cols.Keys + {SourceLabels(source.name).seed, SourceLabels(source.name).sup}
  {
    var ls := SourceLabels(source.name);
    ApplyKeys(Defaults(cols, |sites|, ls), |sites|, SourceWrites(sites, TargetIds(sites), source.records, ls), {ls.seed, ls.sup});
    Apply(Defaults(cols, |sites|, ls), |sites|, SourceWrites(sites, TargetIds(sites), source.records, ls))
  }

  /**
   * Correctness of the join: after a source, each candidate row's seed and
   * supplementary cells hold exactly the source's value for that row: the
   * mean of the last matching record whose window is non-empty, or "NA"
   * when there is none. A later record with the same accession and a
   * non-empty window overwrites an earlier one.
   */
  lemma ParseSourceCell(sites: seq<Site>, source: ShapeSource, cols: Columns, g: Region, r: nat)
    requires Shaped(cols, |sites|) && r < |sites|
    ensures ColumnOf(ParseSourceSpec(sites, source, cols), |sites|, Label(SourceLabels(source.name), g))[r]
            == SourceCell(source.records, sites[r], g)
  {
    var ls := SourceLabels(source.name);
    var n := |sites|;
    var base := Defaults(cols, n, ls);
    var ws := SourceWrites(sites, TargetIds(sites), source.records, ls);
    ApplyCell(base, n, ws, Label(ls, g), r);
    assert ColumnOf(base, n, Label(ls, g))[r] == Missing;
    SourceWritesLatest(sites, source.records, ls, g, r, Missing);
  }

  /** A source writes only its own two columns; every other column is as before. */
  lemma ParseSourceFrame(sites: seq<Site>, source: ShapeSource, cols: Columns, c: string)
    requires Shaped(cols, |sites|)
    requires c != SourceLabels(source.name).seed && c != SourceLabels(source.name).sup
    ensures var res := ParseSourceSpec(sites, source, cols);
      (c in res <==> c in cols) && (c in cols ==> res[c] == cols[c])
  {
    var ls := SourceLabels(source.name);
    ApplyFrame(Defaults(cols, |sites|, ls), |sites|, SourceWrites(sites, TargetIds(sites), source.records, ls), c);
  }

  /** A record whose accession matches no candidate row changes nothing. */
  lemma UnmatchedRecord(records: seq<ShapeRecord>, rec: ShapeRecord, site: Site, g: Region)
    requires Unversioned(rec.accession) != Unversioned(site.transcriptId)
    ensures SourceCell(records + [rec], site, g) == SourceCell(records, site, g)
  {
    assert (records + [rec])[..|records|] == records;
  }

  /** A later record with the row's accession and a non-empty window overwrites whatever the earlier ones gave. */
  lemma LaterRecordWins(records: seq<ShapeRecord>, rec: ShapeRecord, site: Site, g: Region)
    requires Unversioned(rec.accession) == Unversioned(site.transcriptId)
    requires TargetMean(ParseRecord(rec), site, g).Some?
    ensures SourceCell(records + [rec], site, g) == Num(TargetMean(ParseRecord(rec), site, g).value)
  {
  }

  /** The write for region `g` of a candidate row scored by a shape row, stated on the window's tokens. */
  lemma RegionWriteOfRow(row: ShapeRow, site: Site, r: nat, ls: Labels, g: Region, raw: seq<Score>)
    requires raw == Cut(row.scores, ShapeWindow(g, Offset(row, site), site.bindingSitePos))
    ensures RegionWrite(site, r, TargetMeans(row), ls, g)
            == if |raw| > 0 then [Write(Label(ls, g), r, Num(Mean(Zeroed(raw))))] else []
  {
    assert TargetMeans(row)(site, g) == WindowMean(raw);
  }

  /**
   * Writing the seed mean when the seed window is non-empty, then the
   * supplementary mean when that window is non-empty, carries out the
   * target writes of the row.
   */
  lemma TargetWritesApplied(c0: Columns, n: nat, site: Site, r: nat, row: ShapeRow, ls: Labels,
                            seedRaw: seq<Score>, supRaw: seq<Score>, c1: Columns, c2: Columns)
    requires Shaped(c0, n) && r < n
    requires seedRaw == Cut(row.scores, ShapeWindow(Seed, Offset(row, site), site.bindingSitePos))
    requires supRaw == Cut(row.scores, ShapeWindow(Sup, Offset(row, site), site.bindingSitePos))
    requires c1 == if |seedRaw| > 0 then PutCell(c0, n, ls.seed, r, Num(Mean(Zeroed(seedRaw)))) else c0
    requires c2 == if |supRaw| > 0 then PutCell(c1, n, ls.sup, r, Num(Mean(Zeroed(supRaw)))) else c1
    ensures c2 == Apply(c0, n, TargetWrites(site, r, TargetMeans(row), ls))
  {
    var seedWrite := RegionWrite(site, r, TargetMeans(row), ls, Seed);
    var supWrite := RegionWrite(site, r, TargetMeans(row), ls, Sup);
    RegionWriteOfRow(row, site, r, ls, Seed, seedRaw);
    RegionWriteOfRow(row, site, r, ls, Sup, supRaw);
    if |seedRaw| > 0 {
      ApplySnoc(c0, n, [], seedWrite[0]);
    }
    assert c1 == Apply(c0, n, seedWrite);
    if |supRaw| > 0 {
      ApplySnoc(c1, n, [], supWrite[0]);
    }
    assert c2 == Apply(c1, n, supWrite);
    ApplyConcat(c0, n, seedWrite, supWrite);
  }

  /** `_score_target`: the two window means of one candidate row, each written only if its window is non-empty. */
  method ScoreTarget(features: Features, r: nat, row: ShapeRow, ls: Labels)
    requires features.Valid() && r < |features.sites|
    modifies features
    ensures features.Valid()
    ensures features.columns == Apply(old(features.columns), |features.sites|, TargetWrites(features.sites[r], r, TargetMeans(row), ls))
  {
    var site := features.sites[r];
    var utrStart := row.readLength - site.utrLength;
    var targetStart := utrStart + site.bindingSitePos - 2;
    var targetEnd := targetStart + 8;
    var supStart := targetEnd;
    var supEnd := supStart + 12;
    var seedRaw := Slice(row.scores, targetStart, targetEnd);
    var supRaw := Slice(row.scores, supStart, supEnd);
    if |seedRaw| > 0 {
      features.Put(r, ls.seed, Num(Mean(Zeroed(seedRaw))));
    }
    ghost var c1 := features.columns;
    if |supRaw| > 0 {
      features.Put(r, ls.sup, Num(Mean(Zeroed(supRaw))));
    }
    TargetWritesApplied(old(features.columns), |features.sites|, site, r, row, ls, seedRaw, supRaw, c1, features.columns);
  }

  /** One more candidate row: its target writes, if it matches, on top of those of the rows before it. */
  lemma MatchWritesStep(cols: Columns, sites: seq<Site>, ids: seq<string>, id: string, f: Means, ls: Labels, r: nat)
    requires Shaped(cols, |sites|) && |ids| == |sites| && r < |sites|
    ensures Apply(cols, |sites|, MatchWrites(sites, ids, id, f, ls, r + 1))
            == if ids[r] == id then Apply(Apply(cols, |sites|, MatchWrites(sites, ids, id, f, ls, r)), |sites|, TargetWrites(sites[r], r, f, ls))
               else Apply(cols, |sites|, MatchWrites(sites, ids, id, f, ls, r))
  {
    var before := MatchWrites(sites, ids, id, f, ls, r);
    if ids[r] == id {
      ApplyConcat(cols, |sites|, before, TargetWrites(sites[r], r, f, ls));
    } else {
      assert before + [] == before;
    }
  }

  /** `_parse_row`: every candidate row whose unversioned accession is the shape row's is scored, in index order. */
  method ParseRow(features: Features, ids: seq<string>, row: ShapeRow, ls: Labels)
    requires features.Valid() && |ids| == |features.sites|
    modifies features
    ensures features.Valid()
    ensures features.columns == Apply(old(features.columns), |features.sites|, MatchWrites(features.sites, ids, row.transcriptId, TargetMeans(row), ls, |features.sites|))
  {
    var sites := features.sites;
    var n := |sites|;
    ghost var start := features.columns;
    ghost var f := TargetMeans(row);
    var r := 0;
    while r < n
      invariant r <= n
      invariant features.Valid()
      invariant features.columns == Apply(start, n, MatchWrites(sites, ids, row.transcriptId, f, ls, r))
    {
      MatchWritesStep(start, sites, ids, row.transcriptId, f, ls, r);
      if ids[r] == row.transcriptId {
        ScoreTarget(features, r, row, ls);
      }
      r := r + 1;
    }
  }

  /** `parse_shape_source`: reset the source's two columns to "NA", then join every record in file order. */
  method ParseShapeSource(features: Features, source: ShapeSource)
    requires features.Valid()
    modifies features
    ensures features.Valid()
    ensures features.columns == ParseSourceSpec(features.sites, source, old(features.columns))
  {
    var ls := SourceLabels(source.name);
    var n := |features.sites|;
    features.Assign(ls.seed, Missing);
    features.Assign(ls.sup, Missing);
    ghost var base := features.columns;
    var ids := TargetIds(features.sites);
    var t := 0;
    while t < |source.records|
      invariant t <= |source.records|
      invariant features.Valid()
      invariant features.columns == Apply(base, n, SourceWrites(features.sites, ids, source.records[..t], ls))
    {
      var row := ParseRecord(source.records[t]);
      ghost var before := SourceWrites(features.sites, ids, source.records[..t], ls);
      assert source.records[..t + 1][..t] == source.records[..t];
      ApplyConcat(base, n, before, MatchWrites(features.sites, ids, row.transcriptId, TargetMeans(row), ls, n));
      ParseRow(features, ids, row, ls);
      t := t + 1;
    }
    assert source.records[..t] == source.records;
  }
}
