/**
 * The candidate-site table: the rows the aligners read, and the score
 * columns they add. `Features` stands for the pandas DataFrame that both
 * aligners update in place; only its score columns are modelled, keyed by
 * column name, and the row index is the default 0..n-1.
 */
module Table {
  import opened Scores

  /**
   * One candidate binding site: the versioned transcript accession
   * (`ensembl_transcript_id_version`), the 3' UTR length (`X3_utr_length`),
   * the 1-based anchor of the seed (`binding_site_pos`) and the number of
   * consecutive rows, starting at this one, that share its transcript
   * (`site_abundance_6mer`).
   */
  datatype Site = Site(transcriptId: string, utrLength: int, bindingSitePos: int, siteAbundance: int)

  /** Score columns by name. */
  type Columns = map<string, seq<Score>>

  /** Every column has one cell per row. */
  predicate Shaped(cols: Columns, n: nat)
  {
    forall c :: c in cols ==> |cols[c]| == n
  }

  /** A column holding `v` in each of `n` rows. */
  function Uniform(n: nat, v: Score): (col: seq<Score>)
    ensures |col| == n
    ensures forall r :: 0 <= r < n ==> col[r] == v
  {
    seq(n, _ => v)
  }

  /**
   * The column called `name`; a column that does not exist reads as
   * missing in every row, which is what pandas fills into the other rows
   * when `.at` creates a column.
   */
  function ColumnOf(cols: Columns, n: nat, name: string): (col: seq<Score>)
    requires Shaped(cols, n)
    ensures |col| == n
    ensures name in cols ==> col == cols[name]
    ensures name !in cols ==> col == Uniform(n, Missing)
  {
    if name in cols then cols[name] else Uniform(n, Missing)
  }

  /**
   * `features.at[row, name] = v`: the cell holds `v`, the rest of its
   * column reads as before (missing when the column is new), and every
   * other column is kept.
   */
  function PutCell(cols: Columns, n: nat, name: string, row: nat, v: Score): (res: Columns)
    requires Shaped(cols, n) && row < n
    ensures Shaped(res, n)
    ensures res.Keys == cols.Keys + {name}
    ensures res[name][row] == v
    ensures forall q :: 0 <= q < n && q != row ==> res[name][q] == ColumnOf(cols, n, name)[q]
    ensures forall c :: c in cols && c != name ==> res[c] == cols[c]
  {
    cols[name := ColumnOf(cols, n, name)[row := v]]
  }

  /**
   * Writing one cell changes only that cell: column `name` gets `v` in
   * row `row`, created as missing elsewhere when it did not exist, and
   * every other column reads as before.
   */
  lemma PutCellEffect(cols: Columns, n: nat, name: string, row: nat, v: Score, c: string)
    requires Shaped(cols, n) && row < n
    ensures ColumnOf(PutCell(cols, n, name, row, v), n, c)
            == if c == name then ColumnOf(cols, n, c)[row := v] else ColumnOf(cols, n, c)
    ensures c in cols && c != name ==> PutCell(cols, n, name, row, v)[c] == cols[c]
  {
  }

  /** One `features.at[row, name] = value` assignment. */
  datatype Write = Write(name: string, row: nat, value: Score)

  /** Every write lands in one of the `n` rows. */
  predicate InRows(ws: seq<Write>, n: nat)
  {
    forall k :: 0 <= k < |ws| ==> ws[k].row < n
  }

  /** The columns after the writes `ws` are carried out one after the other. */
  function Apply(cols: Columns, n: nat, ws: seq<Write>): (res: Columns)
    requires Shaped(cols, n) && InRows(ws, n)
    ensures Shaped(res, n)
    decreases |ws|
  {
    if ws == [] then cols
    else
      var w := ws[|ws| - 1];
      PutCell(Apply(cols, n, ws[..|ws| - 1]), n, w.name, w.row, w.value)
  }

  /**
   * The value cell (`name`, `row`) is left with by the writes `ws` when it
   * held `prior`: the value of the last write to it, or `prior` when none
   * writes it.
   */
  function Latest(ws: seq<Write>, name: string, row: nat, prior: Score): Score
    decreases |ws|
  {
    if ws == [] then prior
    else
      var w := ws[|ws| - 1];
      if w.name == name && w.row == row then w.value else Latest(ws[..|ws| - 1], name, row, prior)
  }

  /** A cell no write touches keeps what it held. */
  lemma {:induction false} LatestUnwritten(ws: seq<Write>, name: string, row: nat, prior: Score)
    requires forall k :: 0 <= k < |ws| ==> ws[k].name != name || ws[k].row != row
    ensures Latest(ws, name, row, prior) == prior
    decreases |ws|
  {
    if ws != [] {
      LatestUnwritten(ws[..|ws| - 1], name, row, prior);
    }
  }

  /** A run of writes followed by another is the second run applied to the first's result. */
  lemma {:induction false} LatestConcat(a: seq<Write>, b: seq<Write>, name: string, row: nat, prior: Score)
    ensures Latest(a + b, name, row, prior) == Latest(b, name, row, Latest(a, name, row, prior))
    decreases |b|
  {
    if b == [] {
      assert a + b == a;
    } else {
      assert (a + b)[..|a + b| - 1] == a + b[..|b| - 1];
      LatestConcat(a, b[..|b| - 1], name, row, prior);
    }
  }

  /** After a run of writes each cell holds its last write, or what it held before. */
  lemma {:induction false} ApplyCell(cols: Columns, n: nat, ws: seq<Write>, name: string, row: nat)
    requires Shaped(cols, n) && InRows(ws, n) && row < n
    ensures ColumnOf(Apply(cols, n, ws), n, name)[row] == Latest(ws, name, row, ColumnOf(cols, n, name)[row])
    decreases |ws|
  {
    if ws != [] {
      var w := ws[|ws| - 1];
      var before := Apply(cols, n, ws[..|ws| - 1]);
      ApplyCell(cols, n, ws[..|ws| - 1], name, row);
      PutCellEffect(before, n, w.name, w.row, w.value, name);
    }
  }

  /** A column no write names is left as it was, and exists afterwards exactly when it did before. */
  lemma {:induction false} ApplyFrame(cols: Columns, n: nat, ws: seq<Write>, name: string)
    requires Shaped(cols, n) && InRows(ws, n)
    requires forall k :: 0 <= k < |ws| ==> ws[k].name != name
    ensures var res := Apply(cols, n, ws);
      (name in res <==> name in cols) && (name in cols ==> res[name] == cols[name])
    decreases |ws|
  {
    if ws != [] {
      var w := ws[|ws| - 1];
      ApplyFrame(cols, n, ws[..|ws| - 1], name);
      PutCellEffect(Apply(cols, n, ws[..|ws| - 1]), n, w.name, w.row, w.value, name);
    }
  }

  /** A run of writes keeps every column and adds at most the columns it names. */
  lemma {:induction false} ApplyKeys(cols: Columns, n: nat, ws: seq<Write>, names: set<string>)
    requires Shaped(cols, n) && InRows(ws, n)
    requires forall k :: 0 <= k < |ws| ==> ws[k].name in names
    ensures cols.Keys <= Apply(cols, n, ws).Keys <= cols.Keys + names
    decreases |ws|
  {
    if ws != [] {
      ApplyKeys(cols, n, ws[..|ws| - 1], names);
    }
  }

  /** Two runs of writes one after the other are the second run applied to the first's result. */
  lemma {:induction false} ApplyConcat(cols: Columns, n: nat, a: seq<Write>, b: seq<Write>)
    requires Shaped(cols, n) && InRows(a, n) && InRows(b, n)
    ensures InRows(a + b, n)
    ensures Apply(cols, n, a + b) == Apply(Apply(cols, n, a), n, b)
    decreases |b|
  {
    assert forall k :: 0 <= k < |a + b| ==> (a + b)[k] == if k < |a| then a[k] else b[k - |a|];
    if b == [] {
      assert a + b == a;
    } else {
      assert (a + b)[..|a + b| - 1] == a + b[..|b| - 1];
      ApplyConcat(cols, n, a, b[..|b| - 1]);
    }
  }

  /** One more write on top of a run of writes is one more `PutCell`. */
  lemma ApplySnoc(cols: Columns, n: nat, ws: seq<Write>, w: Write)
    requires Shaped(cols, n) && InRows(ws, n) && w.row < n
    ensures InRows(ws + [w], n)
    ensures Apply(cols, n, ws + [w]) == PutCell(Apply(cols, n, ws), n, w.name, w.row, w.value)
  {
    assert (ws + [w])[..|ws + [w]| - 1] == ws;
  }

  /** Columns reached by the first `k` writes of a run, then write `k`, are those reached by its first `k + 1`. */
  lemma ApplyPrefix(cols: Columns, n: nat, ws: seq<Write>, k: nat, before: Columns, after: Columns)
    requires Shaped(cols, n) && InRows(ws, n) && k < |ws|
    requires before == Apply(cols, n, ws[..k])
    requires after == PutCell(before, n, ws[k].name, ws[k].row, ws[k].value)
    ensures after == Apply(cols, n, ws[..k + 1])
  {
    assert ws[..k + 1][..k] == ws[..k];
  }

  /** The candidate-site table as the aligners see it. */
  class Features {
    const sites: seq<Site>
    var columns: Columns

    ghost predicate Valid()
      reads this
    {
      Shaped(columns, |sites|)
    }

    /** The table as loaded, with the score columns it already holds. */
    constructor (sites: seq<Site>, columns: Columns)
      requires Shaped(columns, |sites|)
      ensures Valid()
      ensures this.sites == sites && this.columns == columns
    {
      this.sites := sites;
      this.columns := columns;
    }

    /** `features[name] = v`: the column is created or replaced, `v` in every row. */
    method Assign(name: string, v: Score)
      requires Valid()
      modifies this
      ensures Valid()
      ensures columns == old(columns)[name := Uniform(|sites|, v)]
    {
      columns := columns[name := Uniform(|sites|, v)];
    }

    /** `features.at[row, name] = v`. */
    method Put(row: nat, name: string, v: Score)
      requires Valid() && row < |sites|
      modifies this
      ensures Valid()
      ensures columns == PutCell(old(columns), |sites|, name, row, v)
    {
      columns := PutCell(columns, |sites|, name, row, v);
    }
  }
}
