# Glyph preprocessing of the victoria text renderer, in Dafny

victoria draws text on the GPU straight from font outlines. Before the GPU
can draw anything, `FontManager::preprocess_font` walks every glyph id of the
font. For each glyph it records the outline commands the TrueType parser
emits and turns them into three flat arrays that the shader indexes:

- **font data**: one 16-byte record per glyph id. It gives where the glyph's
  curves start in the curve list, where its ordering block starts in the
  ordering list, and the glyph's width and height in em units. A glyph with
  no outline gets a sentinel record: zero offsets and size `-10`.
- **font curves**: one `[c1x, c1y, ex, ey]` record per drawn command. The
  values are normalised to em units relative to the glyph's bounding-box
  minimum.
  - A contour start (`move_to`) pushes the marker `[-1, -1, x, y]`.
  - A line pushes its end point, with the segment's midpoint as control
    point.
  - A quadratic pushes its control and end points.
  - The start point of each curve is implicit: it is the previous end point.
- **curve ordering list**: one block per outlined glyph, `[n, o_1 … o_n]`.
  - `n` counts the glyph's line and quadratic segments.
  - The `o_k` are the glyph-relative positions of those curves in the curve
    list.
  - They are sorted by descending maximum X among the curve's start, control
    and end points, so the shader can stop scanning once a curve lies left of
    the pixel.

A cubic segment makes the recorder panic, and the panic aborts the whole
preprocessing run.

The model is split into modules that follow the repository's files:

| module | file | models |
|---|---|---|
| `Utils` | `utils.dfy` | `max_3number` and `min_3number`, and the `usize as u32` truncation |
| `Panics` | `panics.dfy` | the outcome of a run: finished, or aborted by the cubic-segment panic |
| `FontOutline` | `font_outline.dfy` | the `FontOutlineData` recorder and its parser callbacks |
| `FontRecords` | `font_data.dfy` | `FontData::new` and `FontData::empty` |
| `CurveOrdering` | `curve_ordering.dfy` | the stable sort of ordering entries by descending key |
| `GlyphCurves` | `glyph_curves.dfy` | the per-glyph inner loop (curve normalisation and ordering entries) and the glyph's ordering block |
| `FontManager` | `font_manager.dfy` | `preprocess_font` over all glyph ids, the three getters, and loop methods that mirror the source's counters |

The semantics of preprocessing are given as pure folds:

- `GlyphCurves.Trace` folds over one glyph's commands.
- `FontManager.Build` folds over the glyph ids.

Each operation gets an independent characterisation, and lemmas connect the
two. Examples:

- the curve a drawn command must produce (`CurveFor`);
- the positions of the segments among the drawn commands (`SegmentOffsets`);
- the key of a curve computed from the curve list alone (`KeyAt`);
- the curve and ordering totals of the earlier glyph ids (`CurveTotal`,
  `OrderingTotal`).

The methods `PushCommand`, `PushGlyphCurves`, `PushBlock`, `ProcessGlyph` and
`PreprocessFont` mirror the source's loops and running counters
(`curves_index`, `ordering_index`, `last_x`, `last_y`). They are proved equal
to the folds.

### Band lists and tie order

`FontDrawingData` (`src/core/font_manager/font_info_saving.rs`) declares
`hor_band_list` and `ver_band_list` fields, but `preprocess_font` does not
fill them. It builds one ordering block per glyph instead, over all of the
glyph's line and quadratic curves. The model follows `preprocess_font`.

The block is sorted with Rust's `sort_by`, which is stable. Entries are pushed
in ascending offset order, so entries with equal keys come out in ascending
offset order.

## Model

| member | source | states |
|---|---|---|
| Utils.AsU32 | src/core/font_manager/mod.rs:111-118 | The `as u32` cast lands below 2^32, keeps the low 32 bits (the value and the result differ by a multiple of 2^32), and so leaves any value below 2^32 unchanged. |
| Utils.Max3 | src/utils/mod.rs:1-11 | The result is at least each of the three arguments and is one of them. |
| Utils.Max3EarliestMaximal | src/utils/mod.rs:1-11 | A later argument replaces the running maximum only when strictly greater, so on ties the earliest maximal argument is returned. |
| Utils.Min3 | src/utils/mod.rs:13-23 | The result is at most each of the three arguments and is one of them. |
| Utils.Min3EarliestMinimal | src/utils/mod.rs:13-23 | On ties the earliest minimal argument is returned. |
| Utils.Min3AtMostMax3 | src/utils/mod.rs:1-23 | On the same arguments the minimum never exceeds the maximum. |
| FontOutline.New | src/core/font_manager/font_outline.rs:19-21 | A fresh recorder holds no commands. |
| FontOutline.Finish | src/core/font_manager/font_outline.rs:23-25 | Finishing keeps the recorded commands unchanged. |
| FontOutline.PointCommands | src/core/font_manager/font_outline.rs:27-29 | Iteration yields the recorded commands in recording order. |
| FontOutline.MoveTo | src/core/font_manager/font_outline.rs:33-35 | One more command: the earlier ones are kept and the last one is the move with the given point. |
| FontOutline.LineTo | src/core/font_manager/font_outline.rs:37-39 | One more command: the earlier ones are kept and the last one is the line to the given point. |
| FontOutline.QuadTo | src/core/font_manager/font_outline.rs:41-43 | One more command: the earlier ones are kept and the last one is the quadratic with the given control and end points. |
| FontOutline.CurveTo | src/core/font_manager/font_outline.rs:45-49 | A cubic segment always ends in the cubic-segment panic. |
| FontOutline.Close | src/core/font_manager/font_outline.rs:51-53 | One more command: the earlier ones are kept and the last one is `Close`. |
| FontOutline.Deliver | src/core/font_manager/font_outline.rs:32-53 | No contract of its own: it dispatches one parser event to its callback. DeliverAppends characterises it. |
| FontOutline.Record | src/core/font_manager/mod.rs:46-50 | No contract of its own: it feeds a glyph's event stream to a fresh recorder. RecordRoundTrip characterises it. |
| FontOutline.DeliverAppends | src/core/font_manager/font_outline.rs:32-53 | A parser event is appended exactly when it is not a cubic; a cubic panics. |
| FontOutline.RecordRoundTrip | src/core/font_manager/font_outline.rs:32-53 | Recording an event stream succeeds iff it has no cubic, and then iterating the recorder gives back exactly that stream, in order. |
| FontRecords.New | src/core/font_manager/font_data.rs:13-27 | Both offsets are cast to 32 bits (unchanged below 2^32). Width and height times units-per-em give back the box's width and height. A well-formed box gives non-negative sizes. |
| FontRecords.Empty | src/core/font_manager/font_data.rs:29-36 | The sentinel has zero offsets and negative sizes. |
| FontRecords.EmptyIsDistinguishable | src/core/font_manager/font_data.rs:13-36 | The sentinel is recognised by its size, and no record built from a well-formed box is taken for it. |
| CurveOrdering.Insert | src/core/font_manager/mod.rs:108-109 | Its own contract states only that the result is the input plus the new entry, as a multiset. InsertKeepsNonIncreasing, InsertKeepsStableOrder and, for the whole sort, SortByKeyDescending and SortIsStable characterise it. |
| CurveOrdering.SortByKeyDescending | src/core/font_manager/mod.rs:108-109 | The sorted entries are a permutation of the input with non-increasing keys. |
| CurveOrdering.SortIsStable | src/core/font_manager/mod.rs:108-109 | Entries listed in emission order come out with equal keys in emission order, i.e. ordered by (key descending, offset ascending). |
| GlyphCurves.Step | src/core/font_manager/mod.rs:70-105 | No contract of its own: one arm of the inner loop on the pen state. TraceCurves, TraceOffsets and TraceKeys characterise its effect, and FontManager.PushCommand proves the loop arm equal to it. |
| GlyphCurves.Trace | src/core/font_manager/mod.rs:57-107 | No contract of its own: the fold of Step over a glyph's commands. TraceCurves, TraceOffsets and TraceKeys characterise it. |
| GlyphCurves.TracePrefixStep | src/core/font_manager/mod.rs:69-106 | Processing the command at position `j` is one step applied to the state left by the commands before it. |
| GlyphCurves.TraceCurves | src/core/font_manager/mod.rs:57-106 | A glyph pushes one curve per non-`Close` command. Each curve is what its command prescribes: the marker for a move, the copied points for a quadratic, the end point with the midpoint control for a line. The current point is the last curve's end point. |
| GlyphCurves.TraceOffsets | src/core/font_manager/mod.rs:77-103 | The unsorted entries name exactly the positions of the line and quadratic curves among the drawn commands, in emission order; there is one per segment. |
| GlyphCurves.TraceKeys | src/core/font_manager/mod.rs:84-99 | Each entry names a curve of the glyph and carries that curve's key: the maximum X of its implicit start, control and end points. |
| GlyphCurves.TraceInfos | src/core/font_manager/mod.rs:68-106 | The two statements above together. |
| GlyphCurves.Block | src/core/font_manager/mod.rs:108-119 | Its own contract states only the length, one more than the entry count. BlockWithoutTruncation, BlockNamesSegments and BlockLayout characterise its contents. |
| GlyphCurves.BlockWithoutTruncation | src/core/font_manager/mod.rs:111-119 | Below 2^32 the block is the entry count followed by the offsets of the sorted entries. |
| GlyphCurves.BlockNamesSegments | src/core/font_manager/mod.rs:111-120 | The header counts the glyph's segments and every later value addresses a segment curve of the glyph. |
| GlyphCurves.BlockLayout | src/core/font_manager/mod.rs:108-120 | The block is `[n, o_1 … o_n]`. `n` is the glyph's segment count. The `o_k` are exactly the segment positions, never a contour marker. Each appears once, ordered by descending key with ties by ascending offset. |
| FontManager.FrameOf | src/core/font_manager/mod.rs:59-60 | The glyph origin times units-per-em is the bounding-box minimum. |
| FontManager.AddGlyph | src/core/font_manager/mod.rs:46-120 | No contract of its own: one pass of the outer loop on the three arrays. AddGlyphSucceeds, AddGlyphSizes, AddGlyphExtends, AddOutlinedGlyph and FontManager.ProcessGlyph characterise it. |
| FontManager.Build | src/core/font_manager/mod.rs:45-121 | No contract of its own: the fold of AddGlyph over the glyph ids. BuildSucceedsIffQuadratic, BuildSizes, GlyphRecord and GlyphRuns characterise it. |
| FontManager.Preprocess | src/core/font_manager/mod.rs:36-122 | No contract of its own: Build on a manager's face, stored in the manager. PreprocessFrom, PreprocessIdempotent, PreprocessIgnoresOldContents and FontManager.PreprocessFont characterise it. |
| FontManager.AddGlyphSucceeds | src/core/font_manager/mod.rs:46-54 | One glyph id panics exactly when it is outlined with a cubic segment. |
| FontManager.BuildSucceedsIffQuadratic | src/core/font_manager/mod.rs:45-107 | Preprocessing panics iff some outlined glyph has a cubic segment. |
| FontManager.AddGlyphSizes | src/core/font_manager/mod.rs:48-120 | One glyph id adds one record, one curve per drawn command, and either nothing or its segment count plus one ordering values. |
| FontManager.BuildSizes | src/core/font_manager/mod.rs:36-122 | One record per glyph id. The curve and ordering arrays have exactly the totals the glyphs contribute. |
| FontManager.AddGlyphExtends | src/core/font_manager/mod.rs:48-120 | Processing a glyph only appends to the three arrays. |
| FontManager.BuildPrefix | src/core/font_manager/mod.rs:45-121 | Building a prefix of the glyph ids yields prefixes of all three arrays. |
| FontManager.BuildStep | src/core/font_manager/mod.rs:45-121 | Building one more glyph id is one more glyph step on the arrays built so far. |
| FontManager.GlyphRecord | src/core/font_manager/mod.rs:48-67 | The record of glyph id `i` is the sentinel when it has no outline, and then the glyph adds no curves and no ordering values. Otherwise it is `FontData::new` applied to the curve and ordering totals of all earlier ids. |
| FontManager.AddOutlinedGlyph | src/core/font_manager/mod.rs:61-120 | An outlined cubic-free glyph appends its record, its curve run and its block. |
| FontManager.GlyphCurveRun | src/core/font_manager/mod.rs:61-102 | Outlined glyph `i`'s curves sit in the curve list starting at the curve total of the earlier glyph ids. |
| FontManager.GlyphBlockRun | src/core/font_manager/mod.rs:108-120 | Outlined glyph `i`'s block sits in the ordering list starting at the ordering total of the earlier glyph ids. |
| FontManager.GlyphRuns | src/core/font_manager/mod.rs:61-120 | The two statements above together. |
| FontManager.EmptyRecordIffNoOutline | src/core/font_manager/mod.rs:48-67 | With well-formed boxes, a record is the sentinel exactly when its glyph has no outline. |
| FontManager.TotalsMonotone | src/core/font_manager/mod.rs:42-120 | The curve and ordering totals of earlier glyph ids never exceed those of the font. |
| FontManager.OrderingRunNamesSegments | src/core/font_manager/mod.rs:111-120 | At the ordering total of the earlier ids, the ordering list holds outlined glyph `i`'s segment count. Each following offset addresses one of its segment curves. |
| FontManager.RecordIndices | src/core/font_manager/mod.rs:61-120 | Below 2^32, `curve_texel_index` and `curve_info_index` equal the earlier ids' totals. `ordering[curve_info_index]` is the segment count `n`, and each of the `n` following offsets names one of the glyph's line or quadratic commands. |
| FontManager.OffsetsLandInRun | src/core/font_manager/mod.rs:61-102 | An offset into a glyph's curve run, added to where the run starts in the curve list, reads the run's curve at that offset, which is the curve its drawn command prescribes. |
| FontManager.RecordOffsetsLand | src/core/font_manager/mod.rs:61-120 | Each of the `n` offsets after outlined glyph `i`'s header, added to `curve_texel_index`, reads from the curve list exactly the curve its command prescribes. |
| FontManager.RecordLocatesGlyph | src/core/font_manager/mod.rs:61-120 | Both statements above: the record locates the glyph's block, and each offset in the block, taken from `curve_texel_index`, lands on one of the glyph's own segment curves, which is the curve its command prescribes. |
| FontManager.PreprocessIgnoresOldContents | src/core/font_manager/mod.rs:39-41 | Preprocessing clears the arrays: their earlier contents do not affect the result. |
| FontManager.PreprocessIdempotent | src/core/font_manager/mod.rs:36-43 | Preprocessing twice equals preprocessing once. |
| FontManager.PreprocessFrom | src/core/font_manager/mod.rs:36-122 | A completed build is the manager preprocessing yields, with one record per glyph id and the curve and ordering totals. |
| FontManager.PrefixPanicPropagates | src/core/font_manager/mod.rs:45-54 | A panic while building earlier glyph ids is a panic of the whole run. |
| FontManager.PreprocessPanics | src/core/font_manager/mod.rs:45-54 | Such a panic is the cubic-segment panic of `preprocess_font`, and the font is not quadratic-only. |
| FontManager.GetFontData | src/core/font_manager/mod.rs:140-146 | Returns the 16-byte record size, the record count and the records. |
| FontManager.GetFontCurves | src/core/font_manager/mod.rs:148-150 | Returns the curve count and the curves. |
| FontManager.GetFontCurveOrderingList | src/core/font_manager/mod.rs:152-157 | Returns the ordering-list length and the list. |
| FontManager.GettersAfterPreprocess | src/core/font_manager/mod.rs:140-157 | After preprocessing, the getters report the glyph count, the curve total and the ordering total. |
| FontManager.PushCommand | src/core/font_manager/mod.rs:70-105 | One arm of the inner loop has exactly the effect of one step on the current point, the glyph's curve run and its entries. |
| FontManager.PushGlyphCurves | src/core/font_manager/mod.rs:57-107 | The inner loop appends exactly the glyph's traced curves to the shared list, collects its traced entries, and keeps `curves_index` equal to the list length. |
| FontManager.PushBlock | src/core/font_manager/mod.rs:108-120 | The block push appends exactly the glyph's block: its length plus one values. |
| FontManager.ProcessGlyph | src/core/font_manager/mod.rs:46-120 | One outer-loop pass is exactly one glyph step, and the two counters equal the new array lengths. |
| FontManager.PreprocessFont | src/core/font_manager/mod.rs:36-122 | The loop with its counters yields exactly the folded result. It succeeds iff the font is quadratic-only, and then has one record per glyph id and the curve and ordering totals. |

## Left out

- `FontManager::new` reads the font file and parses it. That is I/O and a
  foreign parser. The parsed face is a parameter (`Face`): units-per-em plus,
  per glyph id, either no outline or a bounding box and the event stream the
  parser feeds to the recorder.
- The model assumes units-per-em is positive (`unitsPerEm > 0.0`), which the
  TrueType `head` table guarantees. It is not re-checked.
- `set_text`, `get_string_vec` and `string_data.rs` are text layout, not
  preprocessing.
- `println!` of skipped glyphs is console output.
- Coordinates are `real`. `f32` rounding, NaN, and the `partial_cmp().unwrap()`
  panic on NaN keys are not modelled. Width, height and normalised
  coordinates are therefore exact quotients.
- FontRecords.New: the bounding-box width and height are unbounded integer
  differences. The parser's 16-bit `Rect::width`/`height` subtraction, which
  can overflow for extreme boxes, is not modelled.
- The glyph count is unbounded. The parser's `u16` limit on `number_of_glyphs`
  is not modelled.
- Utils.Max3: modelled on `real` keys only. The source is generic over
  `PartialOrd`, but it is only ever called on `f32`.
- FontOutline.Finish: `shrink_to_fit` only changes capacity, which has no
  counterpart in a sequence.
- GlyphCurves.BlockLayout: stated only when the glyph has fewer than 2^32
  commands, so the `as u32` casts are the identity. The same holds for
  FontManager.OrderingRunNamesSegments, FontManager.RecordIndices,
  FontManager.RecordOffsetsLand and FontManager.RecordLocatesGlyph,
  where the array totals must also be below 2^32. Beyond that bound the
  model truncates exactly as the source does (`Utils.AsU32`), but nothing is
  proved about where truncated offsets point.
- `FontDrawingData` and its band-list fields are only a data declaration
  that `preprocess_font` does not fill; its serialisation is not modelled.
- GPU upload, the wgpu pipeline, settings, the game clock and the GUI are
  outside preprocessing.
