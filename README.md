# Genuine-table check: a Dafny model

The drafts under `betta/` decide whether an HTML table is "genuine": its cells
reconcile into one header hierarchy once the `rowspan` and `colspan` of each
cell are taken into account. Each draft turns the table into rows of cell
records. It then sweeps those rows from top to bottom with a frontier of cells
(`old`/`new`), two cursors and a width accumulator. It accepts when every row
exactly partitions the frontier slots above it, when cells aligned under
aligned cells share their tag skeleton, and when no span is left dangling
after the last row. Version 3.0 and version 2.3 also try the transpose and
two composed transforms of the table, and so label it top, left, right,
bottom or not.

This project models each variant over shared cell and markup models and
proves what each variant computes and where the variants differ:

- `Markup`: the cell payload as a node tree, span attributes, and the
  tag skeleton `get_tag_structure` in its two dialects (with and without the
  `span` rule).
- `Layout`: the dense-matrix fill / transpose / collapse geometry
  (`get_transpose`, `transpose_table_structure`), on positions.
- `Mirror`: version 1.7's right-to-left matrix flip, with its marking
  offset as a parameter.
- `SpanTableV3`, `SpanTableV3Facts`: the `SpanTable` class of version 3.0
  (six-field cells) with its rowspan-decrement-first sweep.
- `SpanRecords`, `SpanRecordsFacts`: the four-field record, the record
  builders, and the "carry when rowspan > 1" sweep shared by versions 2.3, 1.7
  and 1.5, parameterised by skeleton dialect.
- `SpanTableV23`, `SpanTableV23Facts`: the `SpanTable` class of version 2.3, its
  classifier and `check`.
- `CheckV17`, `CheckV15`: the free-function sweeps of versions 1.7 and 1.5.
- `SweepV14`, `SweepV14Facts`: the older sweep of version 1.4, which matches
  carried cells as a leading prefix.
- `RelatableV04`: version 0.4's colspan width check.
- `Samples`: the sample tables embedded in version 0.4, and the answers of
  version 0.4 and version 3.0 on them.
- `Versions`: theorems comparing the variants.

Python's shared mutable cell dictionaries are modelled as a working grid of
values addressed by positions `(row, index)`. The frontier lists are
sequences of positions, and every in-place update (`rowspan -= 1`,
`similarity = True`, `nottitle = True`) is a `Put` at a position. A flag set on
a cell in one row is therefore read back through the frontier one row later,
just as the source's aliasing does. Each sweep has two forms: a specification
function, and a method with the source's `while` loops. The method is proved
equal to the function.

## Model

| member | source | states |
|---|---|---|
| Markup.ChildStructuresAreKeptSkeletons | betta/convert_html_to_excel_v_3.0.py:171-178 | the child list is exactly the skeletons of the element children that are not transparent, in order; text and `span` children are dropped |
| Markup.KeptChildren | betta/convert_html_to_excel_v_3.0.py:171-178 | the kept children are children of the element, are elements, and are not transparent |
| Markup.TextIrrelevant | betta/convert_html_to_excel_v_3.0.py:160-180 | erasing every text of a cell leaves its skeleton unchanged |
| Markup.SameTagsSameSkeleton | betta/convert_html_to_excel_v_3.0.py:160-180 | two trees with the same tags in the same places, whatever their texts, have equal skeletons |
| Markup.DialectsAgreeWithoutSpan | betta/convert_html_to_excel_v_1.7.py:201-222 | on a tree without a `span` element, the span-rule skeleton of v2.3/v3.0 equals the plain skeleton of v1.5/v1.7 |
| Markup.DialectsDifferOnSpan | betta/convert_html_to_excel_v_1.5.py:64-85 | a `span` element is `''` under the span rule but a tag list in the plain dialect, which has no `span` case |
| Layout.SkipFilled | betta/convert_html_to_excel_v_3.0.py:104-105 | the cursor skips occupied slots only: occupied slots lie between the start and the result, and the result is free or past the end |
| Layout.Paint | betta/convert_html_to_excel_v_3.0.py:108-111 | a cell's rectangle is painted exactly where it lies inside the rows×width box; every other slot is unchanged |
| Layout.PaintCell | betta/convert_html_to_excel_v_3.0.py:108-111 | the nested `for r`/`for c` loops paint exactly `Paint` |
| Layout.SkipLoop | betta/convert_html_to_excel_v_3.0.py:104-105 | the `while` loop stops where `SkipFilled` does |
| Layout.FillRowLoop | betta/convert_html_to_excel_v_3.0.py:100-113 | the loop over one row's cells paints what the `FillRow` specification paints |
| Layout.FillMatrix | betta/convert_html_to_excel_v_3.0.py:96-113 | the rows×width matrix built by the loops is `Fill(g)`, with the width taken from row 0 |
| Layout.FillShaped | betta/convert_html_to_excel_v_3.0.py:94-113 | the filled matrix has `\|g\|` rows of row-0 width, and every occupied slot names a real cell of the table |
| Layout.TransposeTwice | betta/convert_html_to_excel_v_3.0.py:116 | transposing a rows × cols matrix and transposing the result back restores it |
| Layout.MarkProcessed | betta/convert_html_to_excel_v_3.0.py:138-140 | the nested marking loops add exactly the cell's rectangle to `processed_cells` |
| Layout.CollapseRowLoop | betta/convert_html_to_excel_v_3.0.py:123-141 | one transposed row's collapse by the loop equals the `CollapseRow` specification |
| Layout.CollapseMatrix | betta/convert_html_to_excel_v_3.0.py:119-143 | the collapse of the whole transposed matrix by the loops equals `CollapseRows`, empty rows omitted |
| Layout.Transposed | betta/convert_html_to_excel_v_3.0.py:92-143 | the transposed layout has at most row-0-width rows, each non-empty and at most `\|g\|` long, of valid source positions |
| Layout.TransposeLayout | betta/convert_html_to_excel_v_3.0.py:92-143 | the fill, transpose and collapse loops compute `Transposed(g)` |
| Layout.TransposedNonEmpty | betta/convert_html_to_excel_v_3.0.py:89-143 | a table with a non-empty first row never transposes to `[]` |
| Layout.UnitTransposedIsTranspose | betta/convert_html_to_excel_v_3.0.py:93-143 | on a rectangle of 1×1 cells, output row c, position r is source row r, position c |
| Mirror.MarkMirrored | betta/convert_html_to_excel_v_1.7.py:65-67 | the nested marking loops add exactly `Marked` to `processed_cells` |
| Mirror.MirrorRowLoop | betta/convert_html_to_excel_v_1.7.py:49-71 | the right-to-left `while j` loop over one row equals the `MirrorRow` specification |
| Mirror.MirrorLayout | betta/convert_html_to_excel_v_1.7.py:22-76 | the fill and the mirror loops compute `Mirrored(g, shift)` |
| Mirror.Mirrored | betta/convert_html_to_excel_v_1.7.py:45-76 | at most one output row per source row, none empty, each of valid source positions and no longer than the width |
| Mirror.UnitMirrored | betta/convert_html_to_excel_v_1.7.py:30-75 | on a rectangle of 1×1 cells, every offset gives each row reversed |
| Mirror.MarksCoverCell | betta/convert_html_to_excel_v_1.7.py:65-69 | with offset 0, the marked slots are exactly the emitted cell's rectangle, which ends at column j |
| Mirror.MarksShiftedRight | betta/convert_html_to_excel_v_1.7.py:67 | with the source's offset 1, the cell's leftmost slot stays unmarked and the slot right of it is marked |
| Mirror.StaircaseMirrored | betta/convert_html_to_excel_v_1.7.py:45-76 | on [[2×1 cell, 1×1], [1×1]], offset 1 re-emits the spanning cell in row 1 and loses the other cell; offset 0 mirrors correctly |
| SpanTableV3.NewCell | betta/convert_html_to_excel_v_3.0.py:28-38 | a cell builds exactly when both spans parse; it keeps the payload, sets both spans and both originals to the parsed values, and sets `similarity` False |
| SpanTableV3.NewRow | betta/convert_html_to_excel_v_3.0.py:27-38 | a row builds exactly when each of its cells does, cell for cell |
| SpanTableV3.KeptRowsFacts | betta/convert_html_to_excel_v_3.0.py:22-25 | the kept rows are exactly the rows whose inner markup is not `''`, nothing else |
| SpanTableV3.BuildRows | betta/convert_html_to_excel_v_3.0.py:20-41 | the table builds exactly when every kept row does, row for row |
| SpanTableV3.NewRowLoop | betta/convert_html_to_excel_v_3.0.py:27-38 | the cell loop computes `NewRow` |
| SpanTableV3.FailurePersists | betta/convert_html_to_excel_v_3.0.py:20-41 | a malformed span in any kept row makes the whole build fail |
| SpanTableV3.Flip | betta/convert_html_to_excel_v_3.0.py:76-78 | same row count and lengths; position j of row i is position \|row\|−1−j of the source row, all fields kept |
| SpanTableV3Facts.FlipTwice | betta/convert_html_to_excel_v_3.0.py:73-82 | flipping twice restores the table |
| SpanTableV3.Transpose | betta/convert_html_to_excel_v_3.0.py:84-147 | fails exactly for an empty table or empty first row; otherwise at most row-0-width rows, none empty, none longer than `\|g\|`, all spans ≥ 1 |
| SpanTableV3Facts.TransposeCellsAreSwaps | betta/convert_html_to_excel_v_3.0.py:127-135 | swapping back every output cell gives a cell of the source table |
| SpanTableV3Facts.UnitTranspose | betta/convert_html_to_excel_v_3.0.py:93-143 | on a rectangle of 1×1 cells, output (c, r) is the swapped source cell (r, c) |
| SpanTableV3.DecFromFrozen | betta/convert_html_to_excel_v_3.0.py:196-197 | the decrement of the frontier rowspans touches no payload, colspan or original |
| SpanTableV3.SweepRow | betta/convert_html_to_excel_v_3.0.py:192-241 | the cursor pass over a row, once accepted, changes only `similarity` flags (no payload, span or original) and leaves a frontier of valid positions |
| SpanTableV3.DecrementFrontier | betta/convert_html_to_excel_v_3.0.py:196-197 | the loop decrements the rowspan of every frontier cell once, in place |
| SpanTableV3.FindBlocking | betta/convert_html_to_excel_v_3.0.py:209-212 | the scan over `old` answers true exactly when some frontier cell is still spanning, has already spanned a row, and would be outreached by the new cell's rowspan |
| SpanTableV3.SweepRowLoop | betta/convert_html_to_excel_v_3.0.py:192-241 | the cursor loop over one row accepts exactly when `SweepRow` does, with the same working grid and next frontier |
| SpanTableV3.AllOneLoop | betta/convert_html_to_excel_v_3.0.py:243-244 | the final scan is true exactly when every last-frontier rowspan is 1 |
| SpanTableV3Facts.UnitVertical | betta/convert_html_to_excel_v_3.0.py:192-245 | a table of 1×1 cells passes exactly when it has ≥ 2 rows, all as long as row 0, and each cell from row 2 on has the skeleton of the cell above |
| SpanTableV3Facts.VerticalWidths | betta/convert_html_to_excel_v_3.0.py:201-238 | a table with no row spans that is accepted has rows of equal colspan width |
| SpanTableV3Facts.SweepRowWidth | betta/convert_html_to_excel_v_3.0.py:201-238 | an accepted row pass leaves a next frontier whose colspans add up to those of the frontier it started from |
| SpanTableV3Facts.SweepFromKeepsWidth | betta/convert_html_to_excel_v_3.0.py:192-245 | from any row on, every frontier the sweep passes, until it refuses a row or ends, is as wide as the current one |
| SpanTableV3Facts.VerticalKeepsWidth | betta/convert_html_to_excel_v_3.0.py:192-245 | with row spans, every frontier of an accepted table, down to the one the final rowspan test reads, is exactly as wide as row 0 |
| SpanTableV3Facts.StaircaseVertical | betta/convert_html_to_excel_v_3.0.py:192-245 | a cell over two rows beside a 1×1 cell, with one cell under the latter, is accepted although its rows have widths 2 and 1 |
| SpanTableV3Facts.OverhangNotVertical | betta/convert_html_to_excel_v_3.0.py:243-244 | the same table with the tall cell over three rows is refused: its rowspan is still 2 after the last row |
| SpanTableV3Facts.MisalignedNotVertical | betta/convert_html_to_excel_v_3.0.py:214-238 | [[a, b (colspan 2)], [c (colspan 2), d]] is refused although both rows are 3 wide: `c` overshoots the one-column slot of `a` |
| SpanTableV3Facts.ClassifyFails | betta/convert_html_to_excel_v_3.0.py:89-90 | the classifier raises exactly when the table or its first row is empty and `is_top` fails |
| SpanTableV3Facts.ClassifyDefined | betta/convert_html_to_excel_v_3.0.py:149-158 | a table with a non-empty first row always gets a label |
| SpanTableV3Facts.OneRowIsLeft | betta/convert_html_to_excel_v_3.0.py:250-252 | a single row of several 1×1 cells with matching skeletons is labelled left: its transpose passes |
| SpanTableV3.SpanTable.constructor | betta/convert_html_to_excel_v_3.0.py:14-15 | a new table has no rows |
| SpanTableV3.SpanTable.MakeTable | betta/convert_html_to_excel_v_3.0.py:17-41 | on success the table is the built table; on a malformed span the field is unchanged |
| SpanTableV3.SpanTable.SetTable | betta/convert_html_to_excel_v_3.0.py:43-46 | the field becomes the given table |
| SpanTableV3.SpanTable.GetCopy | betta/convert_html_to_excel_v_3.0.py:53-71 | a fresh object holding a field-for-field copy, so later sweeps on it leave `self.table` unchanged |
| SpanTableV3.SpanTable.GetFlip | betta/convert_html_to_excel_v_3.0.py:73-82 | a fresh object holding the flipped table |
| SpanTableV3.SpanTable.GetTranspose | betta/convert_html_to_excel_v_3.0.py:84-147 | a fresh object holding the transpose, or null for the bare `[]` of an empty table or first row |
| SpanTableV3.SpanTable.VerticalCheck | betta/convert_html_to_excel_v_3.0.py:182-245 | answers `Vertical(table)` and changes nothing (it sweeps a copy) |
| SpanTableV3.SpanTable.IsTop | betta/convert_html_to_excel_v_3.0.py:247-248 | the sweep on the table itself |
| SpanTableV3.SpanTable.IsLeft | betta/convert_html_to_excel_v_3.0.py:250-252 | the sweep on the transpose; None where the source raises on `[]` |
| SpanTableV3.SpanTable.IsRight | betta/convert_html_to_excel_v_3.0.py:254-256 | the sweep on flip-then-transpose; None where the source raises |
| SpanTableV3.SpanTable.IsBottom | betta/convert_html_to_excel_v_3.0.py:258-260 | the sweep on transpose-flip-transpose; None where the source raises |
| SpanTableV3.SpanTable.GetTypeOfGenuine | betta/convert_html_to_excel_v_3.0.py:149-158 | the first of top, left, right, bottom that passes, else not; stops at the first pass as the source does |
| Wrappers.Decide | betta/convert_html_to_excel_v_3.0.py:149-158 | each label is chosen exactly when its check passes and every earlier check fails; any other outcome is a raise |
| SpanRecords.NewRec | betta/convert_html_to_excel_v_2.3.py:27-30 | a record builds exactly when both spans parse; payload, spans, and `nottitle` False |
| SpanRecords.NewRow | betta/convert_html_to_excel_v_1.7.py:257-261 | a row builds exactly when each of its cells does, cell for cell |
| SpanRecords.KeptRowsFacts | betta/convert_html_to_excel_v_2.3.py:21-24 | with skipping (v2.3), exactly the rows with non-empty inner markup are kept; without it (v1.4, v1.5, v1.7), every row is kept |
| SpanRecords.BuildRows | betta/convert_html_to_excel_v_1.7.py:250-263 | the table builds exactly when every kept row does, row for row |
| SpanRecords.BuildLoop | betta/convert_html_to_excel_v_2.3.py:16-33 | the row loop of `make_table` / `get_tables_with_colspan_and_rowspan` computes `Build` |
| SpanRecords.FailurePersists | betta/convert_html_to_excel_v_1.5.py:113-127 | a malformed span in any kept row makes the whole build fail |
| SpanRecords.Flip | betta/convert_html_to_excel_v_2.3.py:65-74 | every row reversed, all fields kept |
| SpanRecords.Transpose | betta/convert_html_to_excel_v_2.3.py:76-137 | fails exactly for an empty table or empty first row; otherwise at most row-0-width rows, none empty, none longer than `\|g\|`, all spans ≥ 1 |
| SpanRecords.TransposeCellsAreSwaps | betta/convert_html_to_excel_v_1.7.py:127-133 | swapping back every output record gives a record of the source |
| SpanRecords.TransposeLoop | betta/convert_html_to_excel_v_1.7.py:78-143 | the loops of `transpose_table_structure` compute `Transpose` |
| SpanRecords.CarryRowLoop | betta/convert_html_to_excel_v_2.3.py:174-212 | the cursor loop over one row accepts exactly when `CarryRow` does, with the same working grid and next frontier |
| SpanRecords.CarryLoop | betta/convert_html_to_excel_v_1.7.py:265-324 | the whole in-place sweep returns the answer and the mutated grid of `Carry` |
| SpanRecords.Carry | betta/convert_html_to_excel_v_2.3.py:164-166 | an accepted table has at least two rows |
| SpanRecords.CarryEffects | betta/convert_html_to_excel_v_1.5.py:148-164 | the sweep changes only `rowspan` (never raising it) and `nottitle` (only to true); payloads and colspans are untouched |
| SpanRecordsFacts.UnitCarry | betta/convert_html_to_excel_v_1.5.py:129-188 | a table of 1×1 records passes exactly when it has ≥ 2 rows, all as long as row 0, and each record from row 2 on has the skeleton of the record above, in the given dialect |
| SpanRecordsFacts.CarryRowWidth | betta/convert_html_to_excel_v_2.3.py:179-212 | a row the carry loop accepts leaves a next frontier whose colspans add up to those of the frontier it started from |
| SpanRecordsFacts.CarryFromKeepsWidth | betta/convert_html_to_excel_v_2.3.py:174-217 | from any row on, every frontier the carry sweep passes, until it refuses a row or ends, is as wide as the current one |
| SpanRecordsFacts.CarryKeepsWidth | betta/convert_html_to_excel_v_1.7.py:277-324 | with row spans, every frontier of an accepted table, down to the one the final rowspan test reads, is exactly as wide as row 0 |
| SpanRecordsFacts.CarryStaircase | betta/convert_html_to_excel_v_2.3.py:179-217 | a record over two rows beside a 1×1 record, with one record under the latter, is accepted in either dialect |
| SpanRecordsFacts.CarryOverhang | betta/convert_html_to_excel_v_2.3.py:216-217 | the same table with the tall record over three rows is refused: its rowspan is still 2 after the last row |
| SpanRecordsFacts.CarryMisaligned | betta/convert_html_to_excel_v_2.3.py:179-209 | the records [[a, b (colspan 2)], [c (colspan 2), d]] are refused in either dialect: `c` overshoots the one-column slot of `a` |
| SpanRecords.Table.constructor | betta/convert_html_to_excel_v_1.7.py:265 | a grid object whose rows the in-place sweeps update |
| SpanTableV23.SpanTable.constructor | betta/convert_html_to_excel_v_2.3.py:13-14 | a new table has no rows |
| SpanTableV23.SpanTable.MakeTable | betta/convert_html_to_excel_v_2.3.py:16-33 | on success the table is the built table (empty rows skipped); on a malformed span the field is unchanged |
| SpanTableV23.SpanTable.SetTable | betta/convert_html_to_excel_v_2.3.py:35-38 | the field becomes the given table |
| SpanTableV23.SpanTable.GetCopy | betta/convert_html_to_excel_v_2.3.py:45-63 | a fresh object holding a field-for-field copy |
| SpanTableV23.SpanTable.GetFlip | betta/convert_html_to_excel_v_2.3.py:65-74 | a fresh object holding the flipped table |
| SpanTableV23.SpanTable.GetTranspose | betta/convert_html_to_excel_v_2.3.py:76-137 | a fresh object holding the transpose, or null for the bare `[]` |
| SpanTableV23.SpanTable.VerticalCheck | betta/convert_html_to_excel_v_2.3.py:161-218 | the carry sweep with the span rule, on a copy: `self.table` is unchanged |
| SpanTableV23.SpanTable.IsTop | betta/convert_html_to_excel_v_2.3.py:220-221 | the sweep on the table itself |
| SpanTableV23.SpanTable.IsLeft | betta/convert_html_to_excel_v_2.3.py:223-225 | the sweep on the transpose; None where the source raises |
| SpanTableV23.SpanTable.IsRight | betta/convert_html_to_excel_v_2.3.py:227-229 | the sweep on transpose-then-flip (not v3.0's flip-then-transpose); None where the source raises |
| SpanTableV23.SpanTable.IsBottom | betta/convert_html_to_excel_v_2.3.py:231-233 | the sweep on transpose-flip-transpose; None where the source raises |
| SpanTableV23.Label | betta/convert_html_to_excel_v_2.3.py:326-343 | the chain of `if` tries in `check` yields the first passing orientation, else not |
| SpanTableV23.Check | betta/convert_html_to_excel_v_2.3.py:322-344 | `check`: true exactly when some orientation passes; None when building or a reached check raises |
| SpanTableV23Facts.ClassifyFails | betta/convert_html_to_excel_v_2.3.py:81-82 | `check` raises exactly when the table or its first row is empty and `is_top` fails |
| SpanTableV23Facts.UnitFlipVertical | betta/convert_html_to_excel_v_2.3.py:227-229 | on 1×1 records, flipping does not change the sweep's answer |
| SpanTableV23Facts.UnitRightIsLeft | betta/convert_html_to_excel_v_2.3.py:223-229 | on 1×1 records, `is_right` answers what `is_left` does |
| SpanTableV23Facts.UnitNeverRight | betta/convert_html_to_excel_v_2.3.py:322-344 | so a table of 1×1 records is never labelled right |
| CheckV17.FlipTable | betta/convert_html_to_excel_v_1.7.py:8-76 | `[]` exactly for an empty table or first row; at most one row per source row; no empty row |
| CheckV17.FlipCellsAreCells | betta/convert_html_to_excel_v_1.7.py:56-61 | every output record is a source record with value, spans and `nottitle` kept |
| CheckV17.UnitFlip | betta/convert_html_to_excel_v_1.7.py:30-75 | on a rectangle of 1×1 records, the flip reverses every row |
| CheckV17.FlipTableVertical | betta/convert_html_to_excel_v_1.7.py:8-76 | the loops compute the flip as written, with the marks at `j - c + 1` |
| CheckV17.StaircaseFlipAsWritten | betta/convert_html_to_excel_v_1.7.py:67 | the flip as written maps [[a (rowspan 2), b], [c]] to [[b, a], [a]]: `a` is emitted twice and `c` is lost |
| CheckV17.StaircaseFlipCorrected | betta/convert_html_to_excel_v_1.7.py:65-69 | the corrected flip maps it to [[b, a], [c]] |
| CheckV17.TransposeOrEmpty | betta/convert_html_to_excel_v_1.7.py:89-90 | `[]` exactly for an empty table or first row; spans stay ≥ 1 |
| CheckV17.UnitTransposeTable | betta/convert_html_to_excel_v_1.7.py:93-143 | on a rectangle of 1×1 records, output (c, r) is the swapped source record (r, c) |
| CheckV17.TransposeTableStructure | betta/convert_html_to_excel_v_1.7.py:78-143 | the loops compute `TransposeOrEmpty` |
| CheckV17.VerticalChek | betta/convert_html_to_excel_v_1.7.py:265-324 | the plain-skeleton carry sweep, updating its argument's records in place |
| CheckV17.ChekOf | betta/convert_html_to_excel_v_1.7.py:327-334 | fails exactly when the build raises; otherwise the table passes or its transpose does |
| CheckV17.Chek | betta/convert_html_to_excel_v_1.7.py:327-334 | the transpose is built from fresh records before the in-place sweep, and the flip's result is discarded; the answer is `ChekOf` |
| CheckV15.ChekOf | betta/convert_html_to_excel_v_1.5.py:191-198 | fails exactly when the build raises; otherwise the untransposed plain sweep's answer; a pass needs two rows |
| CheckV15.Chek | betta/convert_html_to_excel_v_1.5.py:191-198 | builds the records and runs `_chek` in place on them |
| CheckV15.UnitChek | betta/convert_html_to_excel_v_1.5.py:129-188 | on 1×1 records: ≥ 2 rows, all of row-0 length, and plain skeletons matching the record above from row 2 on |
| CheckV15.ChekWidenedBy17 | betta/convert_html_to_excel_v_1.7.py:327-334 | v1.7 raises on the same inputs as v1.5 and accepts whatever v1.5 accepts |
| CheckV15.OneRowOnly17 | betta/convert_html_to_excel_v_1.5.py:132-133 | a single row of several 1×1 cells: v1.5 rejects it, v1.7 accepts it through the transpose |
| SweepV14.Decrement | betta/convert_html_to_excel_v_1.4.py:150-155 | the end-of-row scan keeps a valid frontier, on a grid of the same shape |
| SweepV14.Leading | betta/convert_html_to_excel_v_1.4.py:120-127 | the prefix match succeeds exactly when the carried cells and the leading frontier cells agree in colspan over their common length; it stops at the shorter length |
| SweepV14.FillRow | betta/convert_html_to_excel_v_1.4.py:130-147 | the fill loop stops at the end of the row or of the frontier, or on an overshoot |
| SweepV14.Sweep | betta/convert_html_to_excel_v_1.4.py:106-107 | a pass needs at least two rows; the working grid keeps its shape |
| SweepV14.ChekOf | betta/convert_html_to_excel_v_1.4.py:161-167 | fails exactly when the build raises; a pass needs two rows |
| SweepV14.DecrementLoop | betta/convert_html_to_excel_v_1.4.py:150-155 | the loop decrements and re-carries exactly the cells that `Decrement` does |
| SweepV14.LeadingLoop | betta/convert_html_to_excel_v_1.4.py:120-127 | the `while` loop succeeds exactly when `Leading` does, at the same cursor |
| SweepV14.FillRowLoop | betta/convert_html_to_excel_v_1.4.py:130-147 | the `while` loop ends in the same state as `FillRow` |
| SweepV14.SweepRowLoop | betta/convert_html_to_excel_v_1.4.py:116-155 | one row's loops compute `SweepRow` |
| SweepV14.SweepLoop | betta/convert_html_to_excel_v_1.4.py:105-158 | `_chek` with its loops returns the answer and the mutated grid of `Sweep` |
| SweepV14.ChekInPlace | betta/convert_html_to_excel_v_1.4.py:105-158 | `_chek` updates the rowspans of the table it is given, as `Sweep` describes |
| SweepV14.Chek | betta/convert_html_to_excel_v_1.4.py:161-167 | `chek` builds the records (no row skipping) and runs `_chek` on them |
| SweepV14Facts.FillRowPartition | betta/convert_html_to_excel_v_1.4.py:130-149 | when the fill reaches both ends, the row's cells from j on, plus the partial sum, are exactly as wide as the frontier slots from k on |
| SweepV14Facts.RowPartition | betta/convert_html_to_excel_v_1.4.py:120-149 | an accepted row has carried cells matching the leading frontier one for one, and its width equals the width of the frontier slots after them |
| SweepV14Facts.SweepEffects | betta/convert_html_to_excel_v_1.4.py:110-155 | the sweep only lowers rowspans, never below 1, and changes no payload, colspan or flag |
| SweepV14Facts.UnitSweep | betta/convert_html_to_excel_v_1.4.py:116-158 | on 1×1 records: passes exactly when there are ≥ 2 rows, all of row-0 length; skeletons are never compared; nothing is mutated |
| SweepV14Facts.StaircaseAccepted | betta/convert_html_to_excel_v_1.4.py:110-158 | [[a (rowspan 2), b], [c]] passes: `a` is carried into row 1 beside `c` |
| SweepV14Facts.OverhangRejected | betta/convert_html_to_excel_v_1.4.py:150-157 | the same table with rowspan 3 fails, because `a` is still carried after the last row |
| SweepV14Facts.MisalignedRejected | betta/convert_html_to_excel_v_1.4.py:130-149 | [[a, b (colspan 2)], [c (colspan 2), d]] fails because `c` overshoots the one-column slot of `a` |
| RelatableV04.CountColsLoop | betta/convert_html_to_excel_v_0.4.py:14-23 | the loop accumulates the row width `CountCols` |
| RelatableV04.IsRelatableTable | betta/convert_html_to_excel_v_0.4.py:4-37 | the method with early returns answers `Relatable` |
| RelatableV04.RelatableCases | betta/convert_html_to_excel_v_0.4.py:11-37 | False without rows; False when row 0 is narrower than 2; otherwise True exactly when any two rows are equally wide |
| RelatableV04.PlainRowWidth | betta/convert_html_to_excel_v_0.4.py:14-23 | a row without colspans is as wide as its number of cells |
| RelatableV04.WidthOnlyReadsColspan | betta/convert_html_to_excel_v_0.4.py:14-23 | a row's width depends only on its colspans, never on rowspan or payload |
| RelatableV04.MalformedCountsAsOne | betta/convert_html_to_excel_v_0.4.py:19-22 | a malformed colspan weighs what an absent one does |
| Samples.HierarchicalRelatable | betta/convert_html_to_excel_v_0.4.py:44-59 | the 4 / 2+2 / 1×4 sample is relational under v0.4 |
| Samples.UnevenNotRelatable | betta/convert_html_to_excel_v_0.4.py:61-71 | the 1-cell-then-2-cell sample is not relational |
| Samples.TwoColumnsRelatable | betta/convert_html_to_excel_v_0.4.py:73-87 | the two-column sample is relational |
| Samples.ThreeLevelsVertical | betta/convert_html_to_excel_v_3.0.py:182-245 | any three-row table of one 4-wide cell, two 2-wide cells and four 1-wide cells, all of rowspan 1, passes v3.0's sweep whatever its payloads |
| Samples.HierarchicalVertical | betta/convert_html_to_excel_v_0.4.py:44-59 | the hierarchical sample builds under v3.0 and passes `vertical_check` |
| Versions.KeptRowsAgree | betta/convert_html_to_excel_v_3.0.py:22-25 | v3.0 and v2.3 skip the same rows |
| Versions.BuildsPlain | betta/convert_html_to_excel_v_2.3.py:16-33 | without span attributes both builders succeed, and they give 1×1 cells with the same payloads in the same places |
| Versions.PlainTopAgrees | betta/convert_html_to_excel_v_3.0.py:182-245 | without span attributes, v3.0's and v2.3's `vertical_check` give the same answer |
| Versions.StaggeredV3Refused | betta/convert_html_to_excel_v_3.0.py:208-212 | v3.0 rejects any table A (rowspan 2), B / C (rowspan 2) / D: the blocking test fires on C, since A has spanned row 0 and still spans row 1 |
| Versions.StaggeredCarried | betta/convert_html_to_excel_v_2.3.py:179-218 | the carry sweep accepts the staggered table in either dialect |
| Versions.StaggeredSplitsV3FromV23 | betta/convert_html_to_excel_v_2.3.py:161-218 | built from raw rows, that table fails v3.0's `vertical_check` and passes v2.3's |
| Versions.MisalignedSplitsV04FromSweeps | betta/convert_html_to_excel_v_0.4.py:11-37 | built from raw rows A \| B B over C C \| D, that table passes v0.4's width-only `is_relatable_table` (both rows count 3 columns), and is refused by v3.0's `vertical_check`, by the carrying sweep in both dialects, and by the `chek` of v1.5 and v1.4 |
| Versions.PlainV15IsV14WithTags | betta/convert_html_to_excel_v_1.5.py:129-198 | without span attributes, v1.5's `chek` is v1.4's `chek` plus the skeleton test |
| Grids.ReverseTwice | betta/convert_html_to_excel_v_3.0.py:78 | reversing a row twice restores it, and a reversed row holds the same elements |

## Left out

- I/O and command line: `get_tables`, `download_html`, `data_acquisition`, `arg_parser`, the `__main__` blocks and `requests` are file, network and process effects.
- Spreadsheet output: `write_to_excel` in every version is workbook calls.
- HTML plumbing: `find_all("tr")`, `find_all(["td","th"])` and `cell.get`. A table is taken as rows of cells, each with a payload tree and two optional span attributes. `decode_contents() == ''` is a flag on the row. A span attribute that `int()` rejects is `Malformed`, and the build fails on it as the source raises.
- `get_genuine_tables` and its nested-table exclusion `table.find("table")` query the document tree; only `check`/`chek` are modelled.
- `print` calls are debug output and are left out.
- `get_table`: a plain getter; the field is read directly.
- The constructor's `self.table = None` is the empty table here; nothing in the core reads `None`.
- Spans below 1: the source accepts `int('0')` and negative values, and a negative column would wrap through Python's negative indexing. The transposes, flips, classifiers and `chek` of v1.7 require spans ≥ 1 (`WellSpanned`, `PositiveSpans`). The sweeps themselves take any integers.
- The bare `[]` that `get_transpose` returns for an empty table or first row has no `vertical_check`. The `is_*` methods and the classifiers return None (or the method returns null) where the source raises `AttributeError`.
- Identity of cells is modelled by positions in one working grid, not by heap references; this captures the aliasing inside a sweep. `get_copy` copies values, and the payload node is shared by value.
- SweepV14: version 1.4 stores the payload under key `'cell'` and has no `nottitle`; the model reuses the shared record, and its `nottitle` is never read or written.
- Samples: the sample texts are rendered in English; no property depends on a text. Only the hierarchical sample is traced through v3.0's sweep; the other two are stated for v0.4 only.
- CheckV17.Chek models the discarded call to `flip_table_vertical`; its result is proved equal to `FlipAsWritten` and is not used, as in the source.
- Control reaching `return False` inside a loop is modelled by outcome datatypes (`Reject`, `Stop`, `Overshoot`) rather than early exits; the answers are the same.

## Findings

| source | as written | input that shows it | evidently intended | confidence | as-written member | corrected member |
|---|---|---|---|---|---|---|
| betta/convert_html_to_excel_v_1.7.py:67 | `flip_table_vertical` marks `(i + r, j - c + 1)` as processed, one column to the right of the emitted cell | [[a with rowspan 2, b], [c]]: the flip gives [[b, a], [a]], so `a` is emitted twice and `c` is lost | mark `(i + r, j - c)`: the slots of the emitted cell, giving [[b, a], [c]] | not executed | CheckV17.StaircaseFlipAsWritten | CheckV17.StaircaseFlipCorrected |
