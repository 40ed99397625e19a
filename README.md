# miRsight score alignment and aggregation engine, modelled in Dafny

This project models the part of miRsight that puts per-base score tracks onto
the table of candidate miRNA binding sites. It then proves properties of that
model. The engine has three stages:

- **Conservation aligner** (`Conservation`, `src/conservation_parser.py`). A
  sorted merge-walk. A cursor walks the candidate table while the lines of a
  conservation track are read in order. Each line is skipped, moves the cursor
  forward row by row, or matches a block of `site_abundance_6mer` rows of one
  transcript. Each matched row gets four window means of the line's scores:
  seed, supplementary, three-prime and five-prime. A window with an "NA" token
  has a missing mean.
- **Shape aligner** (`ShapeParser`, `src/shape_parser.py`). A hash-join on the
  unversioned transcript accession. Each row of a shape reactivity file scores
  every candidate row of its transcript, in read coordinates
  (`read_length - X3_utr_length`). It computes a seed window and the
  supplementary window right after it. A "NULL" token counts as 0, and a window
  is written only when it is non-empty.
- **Source aggregator** (`ShapeScorer`, `src/shape_scorer.py`). It averages the
  per-source values that are not "NA", then appends `shape_seed` and
  `shape_sup` to the feature rows, paired by position.

Three shared modules support them:

- `Scores`: score tokens, sums and means over reals, and Python's slice rule.
- `Names`: `Path.stem` and `str.lower`.
- `Table`: the candidate-site table.

The pandas DataFrame that both aligners update in place is the class
`Table.Features`. It has a constant sequence of sites and a map from column
name to column that its methods reassign; `features.at[r, c] = v` is
`Features.Put` and `features[c] = v` is `Features.Assign`.

Every aligner method is proved against a specification function:

- The cells an aligner writes are described as a log of writes, applied in
  order (`Table.Write`, `Table.Apply`).
- `Table.Latest` gives the value of the last write to one cell.
- The lemmas turn each log into a statement about single cells. Examples:
  - after a matched block, each row holds its own window means and nothing
    else changes;
  - after a shape source, each cell holds the mean of the last matching
    record whose window is non-empty, or "NA" when there is none.

## Behaviour of the code worth knowing

- **Five-prime window near the start of the transcript.** The window is
  `[P-33, P-3)`, cut with Python's slice rule. A negative start counts from the
  end of the track and is not clipped to 0. For `P = 10` on a 50-base track the
  slice is `[27, 7)`. It is empty, so the five-prime mean is missing; it is not
  the mean of the first seven bases. `Conservation.RampExample` and
  `Scores.SliceCountsFromEnd` state this.
- **Cursor after a matched block.** `parse_transcript` returns `i + j`. That is
  the last row of the block, not the row after it
  (`Conservation.ParseStepMatches`).
- **Defaults.** Only the `_seed` and `_sup` columns of a conservation track are
  preset to 0.0. The `_3` and `_5` columns are created by the first `.at`
  write to them. Every row no `.at` write reaches is missing (NaN), not 0.0,
  and when a track matches no row the `_3` and `_5` columns are never
  created (`Table.ApplyFrame`). The model's `ColumnOf` reads an absent
  column as missing in every row.
- **Comparison against one row.** The code compares a track line with the
  single row at the cursor, not with a whole block, and moves the cursor one
  row at a time.
- **Abundance read at the matched row only.** `site_abundance_6mer` is read at
  the row where the match happens. When every row of a transcript's run
  carries the run's full count, a match can still only happen on the first
  row of a run, provided the track's lines carry distinct accessions
  (`Conservation.MatchAtBlockStart`, `Conservation.StepKeepsReady`).

## Model

| member | source | states |
|---|---|---|
| Scores.Mean | src/conservation_parser.py:19 | the mean times the number of values is their sum (`np.mean`) |
| Scores.SliceBound | src/conservation_parser.py:59-65 | a slice bound within the length is kept, one past the end becomes the length, a negative one counts from the end, and one before the start of the sequence becomes 0 |
| Scores.Slice | src/shape_parser.py:31-32 | `s[start:stop]` holds the tokens from the clamped start on, in order, and is as long as the clamped bounds are apart, or empty when they cross |
| Scores.SliceCountsFromEnd | src/conservation_parser.py:59-65 | a negative slice start counts from the end of the track and is not clipped to 0 first |
| Scores.SliceSplit | src/shape_parser.py:28-32 | adjacent non-negative windows cut adjacent pieces of a track |
| Scores.SliceLength | src/shape_parser.py:31-32 | a window that fits the track cuts exactly as many tokens as it is long |
| Names.Stem | src/conservation_parser.py:91 | `Path.stem` is a prefix of the name, and it stops before the last dot; that dot is neither the first nor the last character; the name comes back whole only when it has no such dot |
| Names.StemExamples | src/conservation_parser.py:91 | `phylo100.txt` gives `phylo100`; of two suffixes only the last is dropped; a leading or trailing dot does not start a suffix |
| Names.LowerIdempotent | src/shape_parser.py:91 | lower-casing leaves no upper-case letter and a second lower-casing changes nothing |
| Table.ColumnOf | src/conservation_parser.py:62-65 | an absent column reads as missing in every row, as pandas fills the rows a first `.at` write does not reach |
| Table.PutCell | src/conservation_parser.py:58-59 | after `features.at[row, c] = v` the cell holds v, the rest of column c is as before (missing when c is new), c is the only column added and every other column is kept |
| Table.PutCellEffect | src/conservation_parser.py:58-65 | one `.at` write changes exactly one cell and creates its column if needed; every other column is unchanged |
| Table.LatestUnwritten | src/shape_parser.py:37-41 | a cell that no write of a run touches keeps its value |
| Table.LatestConcat | src/shape_parser.py:62-69 | the last write to a cell after two runs is the second run's last write to it, or else the first run's |
| Table.ApplyCell | src/conservation_parser.py:58-65 | after a run of `.at` writes each cell holds its last write, or what it held before |
| Table.ApplyFrame | src/conservation_parser.py:58-65 | a column no write names keeps its contents, and exists afterwards exactly when it existed before |
| Table.ApplyConcat | src/shape_parser.py:62-69 | two runs of writes one after the other are the second run applied to the first run's result |
| Table.ApplyPrefix | src/conservation_parser.py:58-65 | the first k + 1 writes of a run are its first k writes and then write k |
| Table.Features.Assign | src/conservation_parser.py:92-93 | `features[c] = v` creates or replaces column c with v in every row and changes no other column |
| Table.Features.Put | src/shape_parser.py:38 | `features.at[r, c] = v` is one cell write |
| Conservation.TrackLabels | src/conservation_parser.py:58-65 | a track's four columns are its name followed by `_seed`, `_sup`, `_3` and `_5`, and they are pairwise distinct |
| Conservation.RegionWindow | src/conservation_parser.py:47-55 | for anchor P the seed window starts at P-2 and spans 8; the supplementary window starts at P+9 and spans 12; the three-prime window starts at P+9 and spans 30; the five-prime window ends at P-3 and spans 30 |
| Conservation.MeanScore | src/conservation_parser.py:16-19 | the mean is missing iff the window is empty or holds the token "NA"; otherwise it is the arithmetic mean of the values |
| Conservation.MeanScoreBounds | src/conservation_parser.py:19 | a window mean lies within any bounds of the window's values |
| Conservation.SupIsPrefixOfThreePrime | src/conservation_parser.py:50-53 | the three-prime window starts where the supplementary one starts, and the supplementary window is its first 12 bases |
| Conservation.FivePrimeGapBeforeSeed | src/conservation_parser.py:47-55 | in range, the five-prime window, the single base `P-3` and the seed window tile `[P-33, P+6)`, so `P-3` is in no window |
| Conservation.RampExample | src/conservation_parser.py:47-65 | anchor 10 on the track 1..50: seed 12.5, supplementary 25.5, three-prime 34.5, and a missing five-prime mean (the start wraps) |
| Conservation.StopRow | src/conservation_parser.py:28-38 | the walk moves past exactly the rows whose accession differs and is not numerically smaller, and stops at the first other row or at the end |
| Conservation.RowWritesLatest | src/conservation_parser.py:58-65 | a row's four writes give each region's column that region's mean in that row and change no other row |
| Conservation.ScoreBlockExtends | src/conservation_parser.py:42-65 | scoring one more row of a block is the block so far followed by that row's four writes |
| Conservation.BlockWritesLatest | src/conservation_parser.py:42-65 | the writes of a block give each of its rows, in each region's column, the mean of its own anchor's window; other rows are not written |
| Conservation.ScoreBlockCell | src/conservation_parser.py:42-65 | after a block each of its rows holds its four means, computed from the same track line, and every other row is unchanged |
| Conservation.ScoreBlockFrame | src/conservation_parser.py:58-65 | a block writes no column outside the track's four |
| Conservation.BlockEnd | src/conservation_parser.py:41-43 | a block scores `site_abundance_6mer` rows when it fits, none when the abundance is below 1, and stops at the end of the table |
| Conservation.ParseStep | src/conservation_parser.py:21-67 | one call keeps every column and adds at most the track's four; a returned cursor other than -1 is never before the cursor it was given; -1 writes nothing; it raises only on a string-equal match whose block does not fit |
| Conservation.ParseStepFinished | src/conservation_parser.py:24-25 | the call returns -1, without an error and without writing, exactly when the walk runs off the end of the table |
| Conservation.ParseStepSkips | src/conservation_parser.py:28-34 | a line whose accession differs and is numerically smaller returns the cursor unchanged and writes nothing |
| Conservation.ParseStepAdvances | src/conservation_parser.py:35-38 | a line whose accession differs and is not numerically smaller behaves as the call from the next row |
| Conservation.ParseStepCell | src/conservation_parser.py:41-65 | after one call the matched block's rows hold the line's means over their own windows, and every other cell is as before |
| Conservation.ParseStepFrame | src/conservation_parser.py:58-65 | one call writes only the track's four columns |
| Conservation.ParseStepMatches | src/conservation_parser.py:41-67 | on a string-equal match the call succeeds iff the block fits; it then returns the block's last row and scores rows `k` to `k + abundance - 1` only |
| Conservation.Walk | src/conservation_parser.py:95-100 | a walk over a track's lines keeps every column and adds at most the track's four |
| Conservation.WalkFrame | src/conservation_parser.py:95-100 | a walk over a track writes only that track's four columns |
| Conservation.MatchAtBlockStart | src/conservation_parser.py:28-41 | from a cursor on the first row of a run (or on a row no line names), a line can only match on the first row of a transcript's run |
| Conservation.StepKeepsReady | src/conservation_parser.py:35-67 | on a table whose runs share their accession, and a track with distinct accessions, the cursor one call returns is again such a cursor for the remaining lines |
| Conservation.WalkSound | src/conservation_parser.py:95-100 | on a table whose `site_abundance_6mer` rows counted from the first row of each run stay on that transcript, and a track whose lines carry distinct accessions, each cell of the track's columns keeps its prior value or is the mean of some track line with the row's accession |
| Conservation.DefaultsOrMatched | src/conservation_parser.py:91-100 | under the same two conditions on table and track, after a track file each seed and supplementary cell is the default 0.0, never missing, or a window mean from a line with the row's accession |
| Conservation.Defaults | src/conservation_parser.py:92-93 | the track's `_seed` and `_sup` columns hold 0.0 in every row; every other column is kept |
| Conservation.AlignTrackSpec | src/conservation_parser.py:87-100 | after one track file its `_seed` and `_sup` columns exist, no column is removed, and none outside the track's four is added |
| Conservation.ConserveSpec | src/conservation_parser.py:87-100 | no column is removed, and when no file raises every file's `_seed` and `_sup` columns exist |
| Conservation.ConserveFrame | src/conservation_parser.py:87-100 | a column that is none of the track files' columns is unchanged after all of them, in contents and in existence |
| Conservation.PutRow | src/conservation_parser.py:58-65 | the four `.at` writes of one row are the row's write log |
| Conservation.ScoreRows | src/conservation_parser.py:41-65 | the block loop succeeds iff the block fits, and leaves the columns of the block specification, cut short where it raised |
| Conservation.ParseTranscript | src/conservation_parser.py:21-67 | the cursor loop and block scoring give the success flag, returned cursor and columns of the one-call specification |
| Conservation.AlignTrack | src/conservation_parser.py:87-100 | one track file: defaults, then the walk from row 0 stopping at -1, as specified |
| Conservation.ComputeConservation | src/conservation_parser.py:87-100 | all track files in listing order, as specified; an error ends the table's processing |
| ShapeParser.SourceLabels | src/shape_parser.py:57-58 | a source's two columns are its name followed by `_seed` and `_sup`, and they differ |
| ShapeParser.SourceName | src/shape_parser.py:91 | a source's name is its file stem, lower-cased character by character |
| ShapeParser.Unversioned | src/shape_parser.py:64 | the accession up to its first '.': a prefix with no dot, followed by a dot when shorter |
| ShapeParser.UnversionedIdempotent | src/shape_parser.py:60-64 | dropping the version twice is dropping it once; an accession with no dot is unchanged |
| ShapeParser.UnversionedExample | src/shape_parser.py:64 | `ENST01.4` gives `ENST01` |
| ShapeParser.ParseRecord | src/shape_parser.py:64-67 | a row's id is the unversioned `row[0]`, its read length `row[1]` and its scores `row[3:]` |
| ShapeParser.MetadataIgnored | src/shape_parser.py:63-67 | `row[2]` does not affect the parsed row |
| ShapeParser.ShapeWindow | src/shape_parser.py:22-29 | in read coordinates the seed window starts at offset+P-2 and spans 8, and the supplementary window starts at offset+P+6 and spans 12 |
| ShapeParser.Offset | src/shape_parser.py:22 | the offset plus `X3_utr_length` is the read length: the UTR is the read's last `X3_utr_length` positions |
| ShapeParser.Zeroed | src/shape_parser.py:34-35 | one value per token, in order: the token's number, or 0 for "NULL" |
| ShapeParser.WindowMean | src/shape_parser.py:34-41 | a window has no mean iff it is empty; otherwise the mean of its tokens with "NULL" read as 0 |
| ShapeParser.SeedThenSup | src/shape_parser.py:22-32 | the supplementary window starts where the seed window ends; in range they cut 8 and 12 tokens of one stretch of 20 |
| ShapeParser.NullIsZero | src/shape_parser.py:34-35 | a "NULL" token gives the same mean as a 0 in its place |
| ShapeParser.AllNullIsZero | src/shape_parser.py:34-38 | a non-empty window of only "NULL" tokens has mean 0, not a missing mean |
| ShapeParser.TargetWritesLatest | src/shape_parser.py:37-41 | a window's column is written in the target row iff the window is non-empty, and no other cell changes |
| ShapeParser.TargetIds | src/shape_parser.py:60 | each candidate row's accession without its version |
| ShapeParser.MatchWritesLatest | src/shape_parser.py:46-52 | a shape row scores every candidate row with its accession, zero, one or many, each with its own anchor; other rows keep their values |
| ShapeParser.SourceCell | src/shape_parser.py:62-69 | a source's value for a site is missing iff no record has the site's accession and a non-empty window |
| ShapeParser.SourceWritesLatest | src/shape_parser.py:62-69 | the writes of a whole source leave each cell with the source's value for it, or its prior value |
| ShapeParser.ParseSourceCell | src/shape_parser.py:54-69 | after a source every seed and supplementary cell is the mean of the last matching record whose window is non-empty, or "NA" when there is none |
| ShapeParser.ParseSourceFrame | src/shape_parser.py:57-69 | a source writes only its own two columns |
| ShapeParser.UnmatchedRecord | src/shape_parser.py:46-48 | a record whose accession matches no candidate changes nothing |
| ShapeParser.LaterRecordWins | src/shape_parser.py:62-69 | a later record with the same accession and a non-empty window overwrites earlier values |
| ShapeParser.Defaults | src/shape_parser.py:57-58 | the source's `_seed` and `_sup` columns hold "NA" in every row; every other column is kept |
| ShapeParser.ParseSourceSpec | src/shape_parser.py:54-69 | after a source the table has exactly its former columns and the source's two |
| ShapeParser.RegionWriteOfRow | src/shape_parser.py:31-41 | a region's write carries the mean of the window's tokens, and happens only when the window is non-empty |
| ShapeParser.TargetWritesApplied | src/shape_parser.py:37-41 | the two conditional `.at` writes are the target's write log |
| ShapeParser.ScoreTarget | src/shape_parser.py:21-41 | `_score_target` leaves the columns its write log specifies |
| ShapeParser.MatchWritesStep | src/shape_parser.py:51-52 | one more candidate row adds that row's target writes iff its accession matches |
| ShapeParser.ParseRow | src/shape_parser.py:43-52 | `_parse_row` leaves the columns of the matching rows' write log, in index order |
| ShapeParser.ParseShapeSource | src/shape_parser.py:54-69 | `parse_shape_source` leaves the columns of the source specification |
| ShapeScorer.AvailableConcat | src/shape_scorer.py:21-24 | the values available from two column lists are the first list's followed by the second's |
| ShapeScorer.Available | src/shape_scorer.py:21-24 | every available value is the value of a listed column; when every listed column has a value there is one per column, and when all are "NA" there is none |
| ShapeScorer.AvailableEmpty | src/shape_scorer.py:17-27 | no value is available iff every listed column is "NA" or none is listed |
| ShapeScorer.AvailableWithin | src/shape_scorer.py:21-24 | bounds on the listed values bound every available value |
| ShapeScorer.Average | src/shape_scorer.py:14-27 | the average is "NA" iff every listed column is "NA" or none is listed; otherwise it is the sum of the available values divided by their count |
| ShapeScorer.AverageIgnoresMissing | src/shape_scorer.py:22-24 | an "NA" column, wherever it is listed, adds to neither the total nor the count |
| ShapeScorer.AverageBounds | src/shape_scorer.py:27 | an average lies within any bounds of the source values |
| ShapeScorer.AverageExample | src/shape_scorer.py:21-27 | the values 0.2, "NA", 0.6 average to 0.4 |
| ShapeScorer.ComputeAverage | src/shape_scorer.py:14-27 | the accumulating loop returns the specified average |
| ShapeScorer.OutputHeader | src/shape_scorer.py:49-51 | the header gains `shape_seed` then `shape_sup` after the existing names |
| ShapeScorer.ScoreShape | src/shape_scorer.py:54-66 | row k is paired only with parsed row k, up to the shorter list; a paired row gains its seed average then its supplementary average; every feature row is kept, the unpaired ones unchanged |
| ShapeScorer.SourceColumnLists | src/shape_scorer.py:76-80 | one seed and one supplementary column per shape file, in listing order, named by the lower-cased stem |
| ShapeScorer.SeedAndSupNeverCollide | src/shape_scorer.py:79-80 | no source's seed column is any source's supplementary column |

## Left out

- File and directory I/O, CSV/TSV reading and writing, the `Pool` workers, the `use_caching` short-circuits and progress printing. The tables and tracks are parameters, already split into fields.
- Floating point: scores are reals. The `float32` conversion in `compute_mean_score`, `np.nan_to_num` and NaN identity are not modelled. The missing marker is the explicit `Missing` constructor.
- Conservation.Advances: the accession order `float(id.replace("ENST", ""))` is a parameter `key: string -> real`. A match is string equality, as in the code. An accession `float` cannot parse is not modelled.
- Tokens that are neither numbers nor the missing markers ("NA" for conservation, "NULL" for shape) are not modelled. In the code only a token inside a scored window is converted, so such a token raises only there; one outside every window is never read.
- ShapeParser.ParseRecord: the record type `ShapeRecord` fixes the field positions (`row[0]` the accession, `row[1]` the read length, `row[2]` the metadata, `row[3:]` the scores), so the split of a row into fields is by construction and not proved. `int(row[1])` is a parsed integer field. A row with fewer than two fields or a non-integer read length raises in the code and is not modelled. A row with exactly two fields is modelled: `row[3:]` is empty, its windows are empty and nothing is written.
- Names.Lower: lower-casing covers ASCII letters only.
- `parse_shape`: the driver that projects the table to three columns, loops over the shape files and writes the projected columns is not modelled. `parse_shape_source` is modelled for one source.
- `__init__` of the conservation and shape parsers, and the `parse_batch` / `compute_conservation` drivers beyond the per-table loop over track files, are not modelled. They are configuration and worker-pool plumbing.
- Pandas indexing: the candidate table has the default index 0..n-1, so label and position agree. A column's dtype changing from text "NA" to float is not modelled.
- ShapeScorer.ComputeAverage and ShapeScorer.ScoreShape require every listed column in the paired parsed-shape rows. The code raises `KeyError` for a missing column, and that error path is not modelled.
- `parse_transcript` raising (an abundance below 1 leaves `j` unbound; a block past the end of the table makes `iloc` fail) is modelled as a failed step. The cells written before the error stay written. The exception itself and what the worker pool does with it are not modelled.
- Conservation.WalkSound: the soundness theorem for the merge-walk says where each value comes from. It does not say which line reaches which block; that depends on the track and the table being sorted alike. It assumes the reading of `site_abundance_6mer` in which the rows counted from the first row of each transcript's run stay on that transcript (`BlocksShareAccession`), and a track with no repeated accession (`DistinctAccessions`); tables or tracks outside these conditions are not covered by it or by Conservation.DefaultsOrMatched.
- Conservation.ParseTranscript: the advance at `src/conservation_parser.py:38` is a Python recursion, so one call that moves past about 1000 rows raises `RecursionError` (the default recursion limit) and aborts the file. The model's loop has no depth limit and returns normally there.
- Empty conservation track lines: an empty line of a conservation track makes `conservation.pop(0)` raise `IndexError` in the code. A track line always has an accession in the model, so that error is not modelled.
- Main pipeline sequencing, RNA folding and the machine-learning stages are outside the engine.
