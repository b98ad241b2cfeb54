/** Whole-font preprocessing: every glyph id in turn is recorded, turned into
    curves and an ordering block, and summarised in one record. */
module FontManager {
  import opened Utils
  import opened Panics
  import opened FontOutline
  import opened FontRecords
  import opened CurveOrdering
  import opened GlyphCurves

  /** What the font parser's outline decomposition reports for one glyph id:
      no outline, or a bounding box together with the path callbacks it makes
      while decomposing the outline, in order. */
  datatype GlyphOutline = NoOutline | Outlined(bbox: Rect, events: seq<Command>)

  /** The parsed font face as this model sees it: units per em and the
      outline of every glyph id `0 .. |glyphs|`. */
  datatype Face = Face(unitsPerEm: real, glyphs: seq<GlyphOutline>)

  /** The three shared arrays preprocessing fills. */
  datatype Tables = Tables(fontData: seq<FontData>, curves: seq<Curve>, ordering: seq<nat>)

  /** The manager: the face plus the arrays last built from it. */
  datatype Manager = Manager(face: Face, fontData: seq<FontData>, fontCurves: seq<Curve>, orderingList: seq<nat>)

  /** The normalisation of a glyph with bounding box `bbox`. */
  function FrameOf(bbox: Rect, unitsPerEm: real): (f: Frame)
    requires unitsPerEm > 0.0
    ensures f.unitsPerEm == unitsPerEm
    ensures f.originX * unitsPerEm == bbox.xMin as real
    ensures f.originY * unitsPerEm == bbox.yMin as real
  {
    Frame(unitsPerEm, bbox.xMin as real / unitsPerEm, bbox.yMin as real / unitsPerEm)
  }

  /** Number of curves a glyph contributes to the shared curve list. */
  function CurveCount(g: GlyphOutline): nat {
    match g
    case NoOutline => 0
    case Outlined(_, events) => |Drawn(events)|
  }

  /** Number of values a glyph contributes to the shared ordering list: its
      header plus one offset per line or quadratic segment. */
  function OrderingCount(g: GlyphOutline): nat {
    match g
    case NoOutline => 0
    case Outlined(_, events) => SegmentCount(events) + 1
  }

  /** Total curves contributed by `glyphs`. */
  function CurveTotal(glyphs: seq<GlyphOutline>): nat {
    if |glyphs| == 0 then 0
    else CurveTotal(glyphs[..|glyphs| - 1]) + CurveCount(glyphs[|glyphs| - 1])
  }

  /** Total ordering-list values contributed by `glyphs`. */
  function OrderingTotal(glyphs: seq<GlyphOutline>): nat {
    if |glyphs| == 0 then 0
    else OrderingTotal(glyphs[..|glyphs| - 1]) + OrderingCount(glyphs[|glyphs| - 1])
  }

  /** No outlined glyph hands the recorder a cubic segment. */
  predicate QuadraticOnly(glyphs: seq<GlyphOutline>) {
    forall i :: 0 <= i < |glyphs| && glyphs[i].Outlined? ==> NoCubic(glyphs[i].events)
  }

  /** Processes one glyph id on top of the arrays built so far. */
  function AddGlyph(unitsPerEm: real, t: Tables, g: GlyphOutline): Result<Tables>
    requires unitsPerEm > 0.0
  {
    match g
    case NoOutline => Done(Tables(t.fontData + [Empty()], t.curves, t.ordering))
    case Outlined(bbox, events) =>
      var rec :- Record(events);
      RecordRoundTrip(events);
      var pen := Trace(FrameOf(bbox, unitsPerEm), PointCommands(rec));
      Done(Tables(
        t.fontData + [FontRecords.New(|t.curves|, |t.ordering|, bbox, unitsPerEm)],
        t.curves + pen.curves,
        t.ordering + Block(pen.infos)))
  }

  /** The arrays built from glyph ids `0 .. |glyphs|`, starting empty. */
  function Build(unitsPerEm: real, glyphs: seq<GlyphOutline>): Result<Tables>
    requires unitsPerEm > 0.0
  {
    if |glyphs| == 0 then Done(Tables([], [], []))
    else
      var t :- Build(unitsPerEm, glyphs[..|glyphs| - 1]);
      AddGlyph(unitsPerEm, t, glyphs[|glyphs| - 1])
  }

  /** Clears the arrays and rebuilds them from the face. */
  function Preprocess(m: Manager): Result<Manager>
    requires m.face.unitsPerEm > 0.0
  {
    var t :- Build(m.face.unitsPerEm, m.face.glyphs);
    Done(Manager(m.face, t.fontData, t.curves, t.ordering))
  }

  /** Record size, record count and the records. */
  function GetFontData(m: Manager): (r: (nat, nat, seq<FontData>))
    ensures r.0 == FONT_DATA_SIZE
    ensures r.1 == |r.2| && r.2 == m.fontData
  {
    (FONT_DATA_SIZE, |m.fontData|, m.fontData)
  }

  /** Curve count and the curves. */
  function GetFontCurves(m: Manager): (r: (nat, seq<Curve>))
    ensures r.0 == |r.1| && r.1 == m.fontCurves
  {
    (|m.fontCurves|, m.fontCurves)
  }

  /** Ordering-list length and the list. */
  function GetFontCurveOrderingList(m: Manager): (r: (nat, seq<nat>))
    ensures r.0 == |r.1| && r.1 == m.orderingList
  {
    (|m.orderingList|, m.orderingList)
  }

  // ---------------------------------------------------------------------------
  // Properties of the whole-font build
  // ---------------------------------------------------------------------------

  lemma QuadraticOnlyPrefix(glyphs: seq<GlyphOutline>, n: nat)
    requires n <= |glyphs|
    requires QuadraticOnly(glyphs)
    ensures QuadraticOnly(glyphs[..n])
  {
    forall i | 0 <= i < n && glyphs[..n][i].Outlined? ensures NoCubic(glyphs[..n][i].events) {
      assert glyphs[..n][i] == glyphs[i];
    }
  }

  /** One glyph id panics exactly when its outline has a cubic segment. */
  lemma AddGlyphSucceeds(unitsPerEm: real, t: Tables, g: GlyphOutline)
    requires unitsPerEm > 0.0
    ensures AddGlyph(unitsPerEm, t, g).Done? <==> (g.Outlined? ==> NoCubic(g.events))
  {
    if g.Outlined? {
      RecordRoundTrip(g.events);
    }
  }

  /** The last glyph id adds its own condition to those of the earlier ones. */
  lemma QuadraticOnlySnoc(glyphs: seq<GlyphOutline>)
    requires |glyphs| > 0
    ensures var n := |glyphs| - 1;
      QuadraticOnly(glyphs) <==>
        QuadraticOnly(glyphs[..n]) && (glyphs[n].Outlined? ==> NoCubic(glyphs[n].events))
  {
    var n := |glyphs| - 1;
    if QuadraticOnly(glyphs) {
      QuadraticOnlyPrefix(glyphs, n);
    }
  }

  /** Preprocessing panics exactly when some outlined glyph has a cubic
      segment; a glyph without outline never causes a panic. */
  lemma {:induction false} BuildSucceedsIffQuadratic(unitsPerEm: real, glyphs: seq<GlyphOutline>)
    requires unitsPerEm > 0.0
    ensures Build(unitsPerEm, glyphs).Done? <==> QuadraticOnly(glyphs)
  {
    if |glyphs| > 0 {
      var n := |glyphs| - 1;
      BuildSucceedsIffQuadratic(unitsPerEm, glyphs[..n]);
      QuadraticOnlySnoc(glyphs);
      var b := Build(unitsPerEm, glyphs[..n]);
      if b.Done? {
        AddGlyphSucceeds(unitsPerEm, b.value, glyphs[n]);
      }
    }
  }

  /** One glyph id adds one record and its own curve and ordering counts. */
  lemma AddGlyphSizes(unitsPerEm: real, t: Tables, g: GlyphOutline)
    requires unitsPerEm > 0.0
    requires AddGlyph(unitsPerEm, t, g).Done?
    ensures var r := AddGlyph(unitsPerEm, t, g).value;
      && |r.fontData| == |t.fontData| + 1
      && |r.curves| == |t.curves| + CurveCount(g)
      && |r.ordering| == |t.ordering| + OrderingCount(g)
  {
    if g.Outlined? {
      var f := FrameOf(g.bbox, unitsPerEm);
      RecordRoundTrip(g.events);
      TraceCurves(f, g.events);
      TraceInfos(f, g.events);
    }
  }

  /** The arrays have one record per glyph id, and exactly as many curves and
      ordering values as the glyphs contribute. */
  lemma {:induction false} BuildSizes(unitsPerEm: real, glyphs: seq<GlyphOutline>)
    requires unitsPerEm > 0.0
    requires Build(unitsPerEm, glyphs).Done?
    ensures var t := Build(unitsPerEm, glyphs).value;
      && |t.fontData| == |glyphs|
      && |t.curves| == CurveTotal(glyphs)
      && |t.ordering| == OrderingTotal(glyphs)
  {
    if |glyphs| > 0 {
      var n := |glyphs| - 1;
      BuildSizes(unitsPerEm, glyphs[..n]);
      AddGlyphSizes(unitsPerEm, Build(unitsPerEm, glyphs[..n]).value, glyphs[n]);
    }
  }

  /** Each array of `t` starts with the matching array of `p`. */
  predicate Extends(p: Tables, t: Tables) {
    && |p.fontData| <= |t.fontData| && t.fontData[..|p.fontData|] == p.fontData
    && |p.curves| <= |t.curves| && t.curves[..|p.curves|] == p.curves
    && |p.ordering| <= |t.ordering| && t.ordering[..|p.ordering|] == p.ordering
  }

  /** Extension is transitive. */
  lemma ExtendsTrans(a: Tables, b: Tables, c: Tables)
    requires Extends(a, b) && Extends(b, c)
    ensures Extends(a, c)
  {
    assert c.fontData[..|a.fontData|] == c.fontData[..|b.fontData|][..|a.fontData|];
    assert c.curves[..|a.curves|] == c.curves[..|b.curves|][..|a.curves|];
    assert c.ordering[..|a.ordering|] == c.ordering[..|b.ordering|][..|a.ordering|];
  }

  /** One glyph id only appends to the arrays. */
  lemma AddGlyphExtends(unitsPerEm: real, t: Tables, g: GlyphOutline)
    requires unitsPerEm > 0.0
    requires AddGlyph(unitsPerEm, t, g).Done?
    ensures Extends(t, AddGlyph(unitsPerEm, t, g).value)
  {
    var r := AddGlyph(unitsPerEm, t, g).value;
    assert r.fontData[..|t.fontData|] == t.fontData;
    assert r.curves[..|t.curves|] == t.curves;
    assert r.ordering[..|t.ordering|] == t.ordering;
  }

  /** Building a prefix of the glyph ids yields prefixes of the arrays. */
  lemma {:induction false} BuildPrefix(unitsPerEm: real, glyphs: seq<GlyphOutline>, n: nat)
    requires unitsPerEm > 0.0
    requires n <= |glyphs|
    requires QuadraticOnly(glyphs)
    ensures Build(unitsPerEm, glyphs).Done? && Build(unitsPerEm, glyphs[..n]).Done?
    ensures var t := Build(unitsPerEm, glyphs).value;
      var p := Build(unitsPerEm, glyphs[..n]).value;
      && |p.fontData| <= |t.fontData| && t.fontData[..|p.fontData|] == p.fontData
      && |p.curves| <= |t.curves| && t.curves[..|p.curves|] == p.curves
      && |p.ordering| <= |t.ordering| && t.ordering[..|p.ordering|] == p.ordering
    decreases |glyphs|
  {
    BuildSucceedsIffQuadratic(unitsPerEm, glyphs);
    if n < |glyphs| {
      var m := |glyphs| - 1;
      assert glyphs[..m][..n] == glyphs[..n];
      QuadraticOnlyPrefix(glyphs, m);
      BuildPrefix(unitsPerEm, glyphs[..m], n);
      var p := Build(unitsPerEm, glyphs[..n]).value;
      var mid := Build(unitsPerEm, glyphs[..m]).value;
      AddGlyphExtends(unitsPerEm, mid, glyphs[m]);
      ExtendsTrans(p, mid, Build(unitsPerEm, glyphs).value);
    } else {
      assert glyphs[..n] == glyphs;
      var t := Build(unitsPerEm, glyphs).value;
      assert t.fontData[..|t.fontData|] == t.fontData;
      assert t.curves[..|t.curves|] == t.curves;
      assert t.ordering[..|t.ordering|] == t.ordering;
    }
  }

  /** The tail of a sequence that starts with `p + x` holds `x` right
      after `p`. */
  lemma SliceAfterPrefix<T>(t: seq<T>, p: seq<T>, x: seq<T>)
    requires |p| + |x| <= |t|
    requires t[..|p| + |x|] == p + x
    ensures t[|p| .. |p| + |x|] == x
  {
    forall k | 0 <= k < |x| ensures t[|p| .. |p| + |x|][k] == x[k] {
      assert t[|p| + k] == t[..|p| + |x|][|p| + k] == (p + x)[|p| + k];
    }
  }

  /** Element `k` of a run found at offset `os`. */
  lemma RunAt<T>(t: seq<T>, os: nat, b: seq<T>, k: nat)
    requires os + |b| <= |t|
    requires t[os .. os + |b|] == b
    requires k < |b|
    ensures t[os + k] == b[k]
  {
    assert t[os .. os + |b|][k] == t[os + k];
  }

  /** A block found at offset `os` whose offsets address segments of `d`
      still addresses them in place. */
  lemma RunNamesSegments(t: seq<nat>, os: nat, b: seq<nat>, d: seq<Command>)
    requires os + |b| <= |t|
    requires t[os .. os + |b|] == b
    requires forall k :: 1 <= k < |b| ==> b[k] < |d| && d[b[k]].IsSegment()
    ensures forall k :: os < k < os + |b| ==> t[k] < |d| && d[t[k]].IsSegment()
  {
    forall k | os < k < os + |b| ensures t[k] < |d| && d[t[k]].IsSegment() {
      RunAt(t, os, b, k - os);
    }
  }

  /** Glyph id `i` is processed on top of the arrays built for the ids
      before it, and the result is a prefix of the final arrays. */
  lemma StepAt(unitsPerEm: real, glyphs: seq<GlyphOutline>, i: nat)
    requires unitsPerEm > 0.0
    requires QuadraticOnly(glyphs)
    requires i < |glyphs|
    ensures Build(unitsPerEm, glyphs).Done?
    ensures Build(unitsPerEm, glyphs[..i]).Done?
    ensures Build(unitsPerEm, glyphs[..i + 1]).Done?
    ensures AddGlyph(unitsPerEm, Build(unitsPerEm, glyphs[..i]).value, glyphs[i]) == Build(unitsPerEm, glyphs[..i + 1])
    ensures var p := Build(unitsPerEm, glyphs[..i]).value;
      && |p.fontData| == i
      && |p.curves| == CurveTotal(glyphs[..i])
      && |p.ordering| == OrderingTotal(glyphs[..i])
    ensures var q := Build(unitsPerEm, glyphs[..i + 1]).value;
      var t := Build(unitsPerEm, glyphs).value;
      && |t.fontData| == |glyphs|
      && |q.fontData| <= |t.fontData| && t.fontData[..|q.fontData|] == q.fontData
      && |q.curves| <= |t.curves| && t.curves[..|q.curves|] == q.curves
      && |q.ordering| <= |t.ordering| && t.ordering[..|q.ordering|] == q.ordering
  {
    BuildSucceedsIffQuadratic(unitsPerEm, glyphs);
    BuildSizes(unitsPerEm, glyphs);
    var pre := glyphs[..i];
    var upto := glyphs[..i + 1];
    assert upto[..i] == pre && upto[i] == glyphs[i];
    BuildPrefix(unitsPerEm, glyphs, i + 1);
    BuildPrefix(unitsPerEm, glyphs, i);
    BuildSizes(unitsPerEm, pre);
  }

  /** An outlined glyph without cubic segments appends its record, its curve
      run and its block. */
  lemma AddOutlinedGlyph(unitsPerEm: real, p: Tables, g: GlyphOutline)
    requires unitsPerEm > 0.0
    requires g.Outlined? && NoCubic(g.events)
    ensures var pen := Trace(FrameOf(g.bbox, unitsPerEm), g.events);
      AddGlyph(unitsPerEm, p, g) == Done(Tables(
        p.fontData + [FontRecords.New(|p.curves|, |p.ordering|, g.bbox, unitsPerEm)],
        p.curves + pen.curves,
        p.ordering + Block(pen.infos)))
  {
    RecordRoundTrip(g.events);
  }

  /** The curve run and block an outlined glyph appends. */
  lemma OutlinedParts(unitsPerEm: real, p: Tables, q: Tables, g: GlyphOutline)
    requires unitsPerEm > 0.0
    requires g.Outlined? && AddGlyph(unitsPerEm, p, g) == Done(q)
    ensures NoCubic(g.events)
    ensures var pen := Trace(FrameOf(g.bbox, unitsPerEm), g.events);
      q.curves == p.curves + pen.curves && q.ordering == p.ordering + Block(pen.infos)
  {
    RecordRoundTrip(g.events);
  }

  /** The record of glyph id `i`: the sentinel without an outline, otherwise
      built from the curve and ordering totals of all earlier glyph ids. A
      glyph without outline adds no curves and no ordering values. */
  lemma GlyphRecord(unitsPerEm: real, glyphs: seq<GlyphOutline>, i: nat)
    requires unitsPerEm > 0.0
    requires QuadraticOnly(glyphs)
    requires i < |glyphs|
    ensures Build(unitsPerEm, glyphs).Done?
    ensures var t := Build(unitsPerEm, glyphs).value;
      var cs := CurveTotal(glyphs[..i]);
      var os := OrderingTotal(glyphs[..i]);
      && |t.fontData| == |glyphs|
      && (glyphs[i].NoOutline? ==>
            && t.fontData[i] == Empty()
            && CurveTotal(glyphs[..i + 1]) == cs
            && OrderingTotal(glyphs[..i + 1]) == os)
      && (glyphs[i].Outlined? ==>
            t.fontData[i] == FontRecords.New(cs, os, glyphs[i].bbox, unitsPerEm))
  {
    StepAt(unitsPerEm, glyphs, i);
    var t := Build(unitsPerEm, glyphs).value;
    var p := Build(unitsPerEm, glyphs[..i]).value;
    var q := Build(unitsPerEm, glyphs[..i + 1]).value;
    var g := glyphs[i];
    assert glyphs[..i + 1][..i] == glyphs[..i] && glyphs[..i + 1][i] == g;
    assert t.fontData[i] == q.fontData[i];
    if g.Outlined? {
      AddOutlinedGlyph(unitsPerEm, p, g);
    }
  }

  /** The tables before, at and after glyph id `i`, named. */
  lemma TablesAt(unitsPerEm: real, glyphs: seq<GlyphOutline>, i: nat) returns (p: Tables, q: Tables, t: Tables)
    requires unitsPerEm > 0.0
    requires QuadraticOnly(glyphs)
    requires i < |glyphs|
    ensures Build(unitsPerEm, glyphs) == Done(t)
    ensures Build(unitsPerEm, glyphs[..i]) == Done(p)
    ensures AddGlyph(unitsPerEm, p, glyphs[i]) == Done(q)
    ensures |p.curves| == CurveTotal(glyphs[..i]) && |p.ordering| == OrderingTotal(glyphs[..i])
    ensures |q.curves| <= |t.curves| && t.curves[..|q.curves|] == q.curves
    ensures |q.ordering| <= |t.ordering| && t.ordering[..|q.ordering|] == q.ordering
  {
    StepAt(unitsPerEm, glyphs, i);
    t := Build(unitsPerEm, glyphs).value;
    p := Build(unitsPerEm, glyphs[..i]).value;
    q := Build(unitsPerEm, glyphs[..i + 1]).value;
  }

  /** The curves of outlined glyph id `i` sit in the shared curve list right
      after those of all earlier glyph ids. */
  lemma GlyphCurveRun(unitsPerEm: real, glyphs: seq<GlyphOutline>, i: nat)
    requires unitsPerEm > 0.0
    requires QuadraticOnly(glyphs)
    requires i < |glyphs| && glyphs[i].Outlined?
    ensures Build(unitsPerEm, glyphs).Done?
    ensures var t := Build(unitsPerEm, glyphs).value;
      var cs := CurveTotal(glyphs[..i]);
      var run := Trace(FrameOf(glyphs[i].bbox, unitsPerEm), glyphs[i].events).curves;
      cs + |run| <= |t.curves| && t.curves[cs .. cs + |run|] == run
  {
    var p, q, t := TablesAt(unitsPerEm, glyphs, i);
    var g := glyphs[i];
    OutlinedParts(unitsPerEm, p, q, g);
    var run := Trace(FrameOf(g.bbox, unitsPerEm), g.events).curves;
    SliceAfterPrefix(t.curves, p.curves, run);
  }

  /** The block of outlined glyph id `i` sits in the shared ordering list
      right after those of all earlier glyph ids. */
  lemma GlyphBlockRun(unitsPerEm: real, glyphs: seq<GlyphOutline>, i: nat)
    requires unitsPerEm > 0.0
    requires QuadraticOnly(glyphs)
    requires i < |glyphs| && glyphs[i].Outlined?
    ensures Build(unitsPerEm, glyphs).Done?
    ensures var t := Build(unitsPerEm, glyphs).value;
      var os := OrderingTotal(glyphs[..i]);
      var b := Block(Trace(FrameOf(glyphs[i].bbox, unitsPerEm), glyphs[i].events).infos);
      os + |b| <= |t.ordering| && t.ordering[os .. os + |b|] == b
  {
    var p, q, t := TablesAt(unitsPerEm, glyphs, i);
    var g := glyphs[i];
    OutlinedParts(unitsPerEm, p, q, g);
    var b := Block(Trace(FrameOf(g.bbox, unitsPerEm), g.events).infos);
    SliceAfterPrefix(t.ordering, p.ordering, b);
  }

  /** The curves of outlined glyph id `i` sit in the shared curve list right
      after those of all earlier glyph ids, and its block sits in the shared
      ordering list right after theirs. */
  lemma GlyphRuns(unitsPerEm: real, glyphs: seq<GlyphOutline>, i: nat)
    requires unitsPerEm > 0.0
    requires QuadraticOnly(glyphs)
    requires i < |glyphs| && glyphs[i].Outlined?
    ensures Build(unitsPerEm, glyphs).Done?
    ensures var t := Build(unitsPerEm, glyphs).value;
      var cs := CurveTotal(glyphs[..i]);
      var os := OrderingTotal(glyphs[..i]);
      var g := glyphs[i];
      var pen := Trace(FrameOf(g.bbox, unitsPerEm), g.events);
      var b := Block(pen.infos);
      && cs + |pen.curves| <= |t.curves|
      && t.curves[cs .. cs + |pen.curves|] == pen.curves
      && os + |b| <= |t.ordering|
      && t.ordering[os .. os + |b|] == b
  {
    GlyphCurveRun(unitsPerEm, glyphs, i);
    GlyphBlockRun(unitsPerEm, glyphs, i);
  }

  /** Every glyph id's record is the sentinel exactly when the glyph has no
      outline, provided every outlined glyph's box is well formed. */
  lemma EmptyRecordIffNoOutline(unitsPerEm: real, glyphs: seq<GlyphOutline>, i: nat)
    requires unitsPerEm > 0.0
    requires QuadraticOnly(glyphs)
    requires i < |glyphs|
    requires glyphs[i].Outlined? ==> glyphs[i].bbox.WellFormed()
    ensures Build(unitsPerEm, glyphs).Done?
    ensures |Build(unitsPerEm, glyphs).value.fontData| == |glyphs|
    ensures IsEmpty(Build(unitsPerEm, glyphs).value.fontData[i]) <==> glyphs[i].NoOutline?
  {
    GlyphRecord(unitsPerEm, glyphs, i);
    if glyphs[i].Outlined? {
      EmptyIsDistinguishable(CurveTotal(glyphs[..i]), OrderingTotal(glyphs[..i]), glyphs[i].bbox, unitsPerEm);
    }
  }

  /** The curve and ordering totals of a prefix of the glyph ids never exceed
      those of the whole font. */
  lemma TotalsMonotone(unitsPerEm: real, glyphs: seq<GlyphOutline>, n: nat)
    requires unitsPerEm > 0.0
    requires QuadraticOnly(glyphs)
    requires n <= |glyphs|
    ensures CurveTotal(glyphs[..n]) <= CurveTotal(glyphs)
    ensures OrderingTotal(glyphs[..n]) <= OrderingTotal(glyphs)
  {
    BuildSucceedsIffQuadratic(unitsPerEm, glyphs);
    BuildPrefix(unitsPerEm, glyphs, n);
    BuildSizes(unitsPerEm, glyphs);
    BuildSizes(unitsPerEm, glyphs[..n]);
  }

  /** In the shared ordering list, the block of outlined glyph id `i` starts
      after the blocks of all earlier ids with the glyph's segment count,
      followed by offsets that address the glyph's segment curves. */
  lemma OrderingRunNamesSegments(unitsPerEm: real, glyphs: seq<GlyphOutline>, i: nat)
    requires unitsPerEm > 0.0
    requires QuadraticOnly(glyphs)
    requires i < |glyphs| && glyphs[i].Outlined?
    requires |glyphs[i].events| < U32_MODULUS
    ensures Build(unitsPerEm, glyphs).Done?
    ensures var t := Build(unitsPerEm, glyphs).value;
      var g := glyphs[i];
      var n := SegmentCount(g.events);
      var d := Drawn(g.events);
      var os := OrderingTotal(glyphs[..i]);
      && os + n + 1 <= |t.ordering|
      && t.ordering[os] == n
      && CurveTotal(glyphs[..i]) + |d| <= |t.curves|
      && (forall k :: os < k <= os + n ==> t.ordering[k] < |d| && d[t.ordering[k]].IsSegment())
  {
    GlyphRuns(unitsPerEm, glyphs, i);
    var g := glyphs[i];
    var f := FrameOf(g.bbox, unitsPerEm);
    BlockNamesSegments(f, g.events);
    var t := Build(unitsPerEm, glyphs).value;
    var os := OrderingTotal(glyphs[..i]);
    var b := Block(Trace(f, g.events).infos);
    RunAt(t.ordering, os, b, 0);
    RunNamesSegments(t.ordering, os, b, Drawn(g.events));
  }

  /** The two indices of outlined glyph `i`'s record equal the totals of the
      earlier glyph ids; the value at `curveInfoIndex` is the glyph's segment
      count `n`, and the `n` offsets after it name the glyph's segments. */
  lemma RecordIndices(unitsPerEm: real, glyphs: seq<GlyphOutline>, i: nat)
    requires unitsPerEm > 0.0
    requires QuadraticOnly(glyphs)
    requires i < |glyphs| && glyphs[i].Outlined?
    requires CurveTotal(glyphs) < U32_MODULUS && OrderingTotal(glyphs) < U32_MODULUS
    requires |glyphs[i].events| < U32_MODULUS
    ensures Build(unitsPerEm, glyphs).Done?
    ensures var t := Build(unitsPerEm, glyphs).value;
      var g := glyphs[i];
      var n := SegmentCount(g.events);
      var d := Drawn(g.events);
      && |t.fontData| == |glyphs|
      && var r := t.fontData[i];
      && r.curveTexelIndex == CurveTotal(glyphs[..i])
      && r.curveInfoIndex == OrderingTotal(glyphs[..i])
      && r.curveInfoIndex + n + 1 <= |t.ordering|
      && t.ordering[r.curveInfoIndex] == n
      && r.curveTexelIndex + |d| <= |t.curves|
      && (forall k :: r.curveInfoIndex < k <= r.curveInfoIndex + n ==>
            && t.ordering[k] < |d|
            && d[t.ordering[k]].IsSegment())
  {
    GlyphRecord(unitsPerEm, glyphs, i);
    TotalsMonotone(unitsPerEm, glyphs, i);
    OrderingRunNamesSegments(unitsPerEm, glyphs, i);
  }

  /** Each of the `n` offsets after position `info` of `ordering`, added to
      `texel`, lands in `curves` on the curve of `run` at that offset, and
      that curve is the one drawn command `d[offset]` prescribes. */
  predicate OffsetsLand(f: Frame, curves: seq<Curve>, texel: nat, run: seq<Curve>, d: seq<Command>,
                        ordering: seq<nat>, info: nat, n: nat)
    requires f.unitsPerEm > 0.0
  {
    forall k :: info < k <= info + n ==>
      && k < |ordering|
      && ordering[k] < |run| && ordering[k] < |d|
      && texel + ordering[k] < |curves|
      && curves[texel + ordering[k]] == run[ordering[k]]
      && CurveFor(f, d[ordering[k]], run, ordering[k])
  }

  /** Offsets below `|d|`, taken from where `run` sits in `curves`, land on
      the run's curves, which match their drawn commands. */
  lemma OffsetsLandInRun(f: Frame, curves: seq<Curve>, texel: nat, run: seq<Curve>, d: seq<Command>,
                         ordering: seq<nat>, info: nat, n: nat)
    requires f.unitsPerEm > 0.0
    requires texel + |run| <= |curves| && curves[texel .. texel + |run|] == run
    requires |run| == |d|
    requires forall j :: 0 <= j < |run| ==> CurveFor(f, d[j], run, j)
    requires info + n < |ordering|
    requires forall k :: info < k <= info + n ==> ordering[k] < |d|
    ensures OffsetsLand(f, curves, texel, run, d, ordering, info, n)
  {
  }

  /** Each of the `n` offsets after outlined glyph `i`'s header, added to its
      record's `curveTexelIndex`, lands on the curve of the glyph's run that
      its drawn command prescribes. */
  lemma RecordOffsetsLand(unitsPerEm: real, glyphs: seq<GlyphOutline>, i: nat)
    requires unitsPerEm > 0.0
    requires QuadraticOnly(glyphs)
    requires i < |glyphs| && glyphs[i].Outlined?
    requires CurveTotal(glyphs) < U32_MODULUS && OrderingTotal(glyphs) < U32_MODULUS
    requires |glyphs[i].events| < U32_MODULUS
    ensures Build(unitsPerEm, glyphs).Done?
    ensures |Build(unitsPerEm, glyphs).value.fontData| == |glyphs|
    ensures var t := Build(unitsPerEm, glyphs).value;
      var g := glyphs[i];
      var f := FrameOf(g.bbox, unitsPerEm);
      var r := t.fontData[i];
      OffsetsLand(f, t.curves, r.curveTexelIndex, Trace(f, g.events).curves, Drawn(g.events),
                  t.ordering, r.curveInfoIndex, SegmentCount(g.events))
  {
    GlyphCurveRun(unitsPerEm, glyphs, i);
    var t := Build(unitsPerEm, glyphs).value;
    var g := glyphs[i];
    var f := FrameOf(g.bbox, unitsPerEm);
    var run, d, n := Trace(f, g.events).curves, Drawn(g.events), SegmentCount(g.events);
    assert |t.fontData| == |glyphs|
      && t.fontData[i].curveTexelIndex == CurveTotal(glyphs[..i])
      && t.fontData[i].curveInfoIndex + n < |t.ordering|
      && (forall k :: t.fontData[i].curveInfoIndex < k <= t.fontData[i].curveInfoIndex + n ==> t.ordering[k] < |d|)
    by {
      RecordIndices(unitsPerEm, glyphs, i);
    }
    var r := t.fontData[i];
    assert |run| == |d| && forall j :: 0 <= j < |run| ==> CurveFor(f, d[j], run, j) by {
      TraceCurves(f, g.events);
    }
    OffsetsLandInRun(f, t.curves, CurveTotal(glyphs[..i]), run, d, t.ordering, r.curveInfoIndex, n);
  }

  /** What the shader does with a record: for an outlined glyph, the value at
      `curveInfoIndex` is the glyph's segment count `n`, and each of the `n`
      offsets that follow, added to `curveTexelIndex`, lands on one of the
      glyph's own line or quadratic curves, never on a contour-start sentinel,
      and that curve is the one its command prescribes. */
  lemma RecordLocatesGlyph(unitsPerEm: real, glyphs: seq<GlyphOutline>, i: nat)
    requires unitsPerEm > 0.0
    requires QuadraticOnly(glyphs)
    requires i < |glyphs| && glyphs[i].Outlined?
    requires CurveTotal(glyphs) < U32_MODULUS && OrderingTotal(glyphs) < U32_MODULUS
    requires |glyphs[i].events| < U32_MODULUS
    ensures Build(unitsPerEm, glyphs).Done?
    ensures var t := Build(unitsPerEm, glyphs).value;
      var g := glyphs[i];
      var n := SegmentCount(g.events);
      var d := Drawn(g.events);
      && |t.fontData| == |glyphs|
      && var r := t.fontData[i];
      && r.curveTexelIndex == CurveTotal(glyphs[..i])
      && r.curveInfoIndex == OrderingTotal(glyphs[..i])
      && r.curveInfoIndex + n + 1 <= |t.ordering|
      && t.ordering[r.curveInfoIndex] == n
      && r.curveTexelIndex + |d| <= |t.curves|
      && (forall k :: r.curveInfoIndex < k <= r.curveInfoIndex + n ==>
            && t.ordering[k] < |d|
            && d[t.ordering[k]].IsSegment())
    ensures var t := Build(unitsPerEm, glyphs).value;
      var g := glyphs[i];
      var f := FrameOf(g.bbox, unitsPerEm);
      var r := t.fontData[i];
      OffsetsLand(f, t.curves, r.curveTexelIndex, Trace(f, g.events).curves, Drawn(g.events),
                  t.ordering, r.curveInfoIndex, SegmentCount(g.events))
  {
    RecordIndices(unitsPerEm, glyphs, i);
    RecordOffsetsLand(unitsPerEm, glyphs, i);
  }

  // ---------------------------------------------------------------------------
  // Properties of the manager
  // ---------------------------------------------------------------------------

  /** Preprocessing clears the arrays first: what was in them before has no
      influence on the result. */
  lemma PreprocessIgnoresOldContents(m1: Manager, m2: Manager)
    requires m1.face.unitsPerEm > 0.0
    requires m1.face == m2.face
    ensures Preprocess(m1) == Preprocess(m2)
  {
  }

  /** Preprocessing twice gives the same manager as preprocessing once. */
  lemma PreprocessIdempotent(m: Manager)
    requires m.face.unitsPerEm > 0.0
    ensures Preprocess(m).Done? ==> Preprocess(Preprocess(m).value) == Preprocess(m)
  {
  }

  /** After preprocessing, the getters report one record per glyph id, the
      curve total and the ordering-list total. */
  lemma GettersAfterPreprocess(m: Manager)
    requires m.face.unitsPerEm > 0.0
    requires QuadraticOnly(m.face.glyphs)
    ensures Preprocess(m).Done?
    ensures var m' := Preprocess(m).value;
      && GetFontData(m').1 == |m.face.glyphs|
      && GetFontCurves(m').0 == CurveTotal(m.face.glyphs)
      && GetFontCurveOrderingList(m').0 == OrderingTotal(m.face.glyphs)
  {
    BuildSucceedsIffQuadratic(m.face.unitsPerEm, m.face.glyphs);
    BuildSizes(m.face.unitsPerEm, m.face.glyphs);
  }

  // ---------------------------------------------------------------------------
  // The preprocessing loop with its running counters
  // ---------------------------------------------------------------------------

  /** If the glyph ids before `n` already contain a cubic segment, the whole
      font does too. */
  lemma PrefixPanicPropagates(unitsPerEm: real, glyphs: seq<GlyphOutline>, n: nat)
    requires unitsPerEm > 0.0
    requires n <= |glyphs|
    requires Build(unitsPerEm, glyphs[..n]).Panicked?
    ensures Build(unitsPerEm, glyphs).Panicked?
  {
    BuildSucceedsIffQuadratic(unitsPerEm, glyphs[..n]);
    BuildSucceedsIffQuadratic(unitsPerEm, glyphs);
    if QuadraticOnly(glyphs) {
      QuadraticOnlyPrefix(glyphs, n);
    }
  }

  /** Building one more glyph id is one more `AddGlyph` on the tables built
      so far. */
  lemma BuildStep(unitsPerEm: real, glyphs: seq<GlyphOutline>, i: nat, t: Tables)
    requires unitsPerEm > 0.0
    requires i < |glyphs|
    requires Build(unitsPerEm, glyphs[..i]) == Done(t)
    ensures Build(unitsPerEm, glyphs[..i + 1]) == AddGlyph(unitsPerEm, t, glyphs[i])
  {
    assert glyphs[..i + 1][..i] == glyphs[..i];
  }

  /** The manager that preprocessing yields once all glyph ids are built. */
  lemma PreprocessFrom(m: Manager, t: Tables)
    requires m.face.unitsPerEm > 0.0
    requires Build(m.face.unitsPerEm, m.face.glyphs) == Done(t)
    ensures Preprocess(m) == Done(Manager(m.face, t.fontData, t.curves, t.ordering))
    ensures QuadraticOnly(m.face.glyphs)
    ensures |t.fontData| == |m.face.glyphs|
    ensures |t.curves| == CurveTotal(m.face.glyphs)
    ensures |t.ordering| == OrderingTotal(m.face.glyphs)
  {
    BuildSucceedsIffQuadratic(m.face.unitsPerEm, m.face.glyphs);
    BuildSizes(m.face.unitsPerEm, m.face.glyphs);
  }

  /** A panic while building some prefix of the glyph ids is a panic of the
      whole preprocessing. */
  lemma PreprocessPanics(m: Manager, n: nat)
    requires m.face.unitsPerEm > 0.0
    requires n <= |m.face.glyphs|
    requires Build(m.face.unitsPerEm, m.face.glyphs[..n]).Panicked?
    ensures Preprocess(m) == Panicked(CubicSegment)
    ensures !QuadraticOnly(m.face.glyphs)
  {
    PrefixPanicPropagates(m.face.unitsPerEm, m.face.glyphs, n);
    BuildSucceedsIffQuadratic(m.face.unitsPerEm, m.face.glyphs);
  }

  /** One arm of the source's inner loop: the command's effect on the current
      point, the shared curve list (whose tail from `glyphCurveStart` is the
      glyph's run) and the glyph's ordering entries. */
  method PushCommand(f: Frame, c: Command, glyphCurveStart: nat, lastX: real, lastY: real,
                     fontCurves: seq<Curve>, curvesIndex: nat, infos: seq<Info>,
                     ghost before: seq<Curve>, ghost run: seq<Curve>)
    returns (lastX': real, lastY': real, fontCurves': seq<Curve>, curvesIndex': nat, infos': seq<Info>)
    requires f.unitsPerEm > 0.0 && !c.CurveTo?
    requires fontCurves == before + run && glyphCurveStart == |before|
    requires curvesIndex == |fontCurves|
    ensures var p := Step(f, Pen(lastX, lastY, run, infos), c);
      && lastX' == p.lastX && lastY' == p.lastY
      && fontCurves' == before + p.curves
      && infos' == p.infos
      && curvesIndex' == |fontCurves'|
  {
    var unitsPerEm := f.unitsPerEm;
    lastX', lastY', fontCurves', curvesIndex', infos' := lastX, lastY, fontCurves, curvesIndex, infos;
    match c {
      case MoveTo(a, b) =>
        lastX' := a / unitsPerEm - f.originX;
        lastY' := b / unitsPerEm - f.originY;
        fontCurves' := fontCurves + [Curve(-1.0, -1.0, lastX', lastY')];
        curvesIndex' := curvesIndex + 1;
      case LineTo(a, b) =>
        var x2 := a / unitsPerEm - f.originX;
        var y2 := b / unitsPerEm - f.originY;
        var x1 := (x2 + lastX) / 2.0;
        var y1 := (y2 + lastY) / 2.0;
        fontCurves' := fontCurves + [Curve(x1, y1, x2, y2)];
        var maxX := Max3(lastX, x1, x2);
        infos' := infos + [Info(curvesIndex - glyphCurveStart, maxX)];
        lastX' := x2;
        lastY' := y2;
        curvesIndex' := curvesIndex + 1;
      case QuadTo(a1, b1, a, b) =>
        var x1 := a1 / unitsPerEm - f.originX;
        var y1 := b1 / unitsPerEm - f.originY;
        var x2 := a / unitsPerEm - f.originX;
        var y2 := b / unitsPerEm - f.originY;
        fontCurves' := fontCurves + [Curve(x1, y1, x2, y2)];
        var maxX := Max3(lastX, x1, x2);
        infos' := infos + [Info(curvesIndex - glyphCurveStart, maxX)];
        lastX' := x2;
        lastY' := y2;
        curvesIndex' := curvesIndex + 1;
      case Close =>
    }
  }

  /** The source's inner loop over one glyph's commands: pushes the glyph's
      curves onto the shared curve list, with `curvesIndex` tracking its
      length, and collects the unsorted ordering entries. */
  method PushGlyphCurves(f: Frame, cmds: seq<Command>, curvesBefore: seq<Curve>)
    returns (fontCurves: seq<Curve>, curvesIndex: nat, infos: seq<Info>)
    requires f.unitsPerEm > 0.0
    requires NoCubic(cmds)
    ensures fontCurves == curvesBefore + Trace(f, cmds).curves
    ensures infos == Trace(f, cmds).infos
    ensures curvesIndex == |fontCurves|
  {
    var glyphCurveStart := |curvesBefore|;
    fontCurves := curvesBefore;
    curvesIndex := glyphCurveStart;
    var lastX := 0.0;
    var lastY := 0.0;
    infos := [];
    var j := 0;
    while j < |cmds|
      invariant j <= |cmds|
      invariant NoCubic(cmds[..j])
      invariant var pen := Trace(f, cmds[..j]);
        && lastX == pen.lastX && lastY == pen.lastY
        && fontCurves == curvesBefore + pen.curves
        && infos == pen.infos
      invariant curvesIndex == |fontCurves|
    {
      TracePrefixStep(f, cmds, j);
      ghost var pen := Trace(f, cmds[..j]);
      lastX, lastY, fontCurves, curvesIndex, infos :=
        PushCommand(f, cmds[j], glyphCurveStart, lastX, lastY, fontCurves, curvesIndex, infos, curvesBefore, pen.curves);
      j := j + 1;
    }
    assert cmds[..|cmds|] == cmds;
  }

  /** The source's block push: the entry count, then the offsets of the
      stably sorted entries, each through the 32-bit cast. */
  method PushBlock(orderingBefore: seq<nat>, infos: seq<Info>) returns (orderingList: seq<nat>)
    ensures orderingList == orderingBefore + Block(infos)
    ensures |orderingList| == |orderingBefore| + |infos| + 1
  {
    var sorted := SortByKeyDescending(infos);
    var b := Block(infos);
    orderingList := orderingBefore + [AsU32(|infos|)];
    var k := 0;
    while k < |sorted|
      invariant k <= |sorted|
      invariant orderingList == orderingBefore + b[..k + 1]
    {
      orderingList := orderingList + [AsU32(sorted[k].offset)];
      assert b[..k + 2] == b[..k + 1] + [b[k + 1]];
      k := k + 1;
    }
    assert b[..|sorted| + 1] == b;
  }

  /** One pass of the source's loop body: the arm for a glyph without
      outline, or the recorder, curve and block pushes for an outlined one.
      The two indices mirror the lengths of the shared arrays. */
  method ProcessGlyph(unitsPerEm: real, done: Tables, curvesIndex: nat, orderingIndex: nat, g: GlyphOutline)
    returns (r: Result<Tables>, curvesAfter: nat, orderingAfter: nat)
    requires unitsPerEm > 0.0
    requires curvesIndex == |done.curves| && orderingIndex == |done.ordering|
    ensures r == AddGlyph(unitsPerEm, done, g)
    ensures r.Done? ==> curvesAfter == |r.value.curves| && orderingAfter == |r.value.ordering|
  {
    match g {
      case NoOutline =>
        r := Done(Tables(done.fontData + [Empty()], done.curves, done.ordering));
        curvesAfter, orderingAfter := curvesIndex, orderingIndex;
      case Outlined(bbox, events) =>
        var recorded := Record(events);
        if recorded.Panicked? {
          return Panicked(recorded.fault), curvesIndex, orderingIndex;
        }
        RecordRoundTrip(events);
        var fontData := done.fontData + [FontRecords.New(curvesIndex, orderingIndex, bbox, unitsPerEm)];
        var fontCurves, infos;
        fontCurves, curvesAfter, infos :=
          PushGlyphCurves(FrameOf(bbox, unitsPerEm), PointCommands(recorded.value), done.curves);
        var orderingList := PushBlock(done.ordering, infos);
        orderingAfter := orderingIndex + |infos| + 1;
        r := Done(Tables(fontData, fontCurves, orderingList));
        AddOutlinedGlyph(unitsPerEm, done, g);
    }
  }

  /** The source's loop: glyph ids in order, with `curvesIndex` and
      `orderingIndex` tracking the lengths of the shared arrays. */
  method PreprocessFont(m: Manager) returns (r: Result<Manager>)
    requires m.face.unitsPerEm > 0.0
    ensures r == Preprocess(m)
    ensures r.Done? <==> QuadraticOnly(m.face.glyphs)
    ensures r.Done? ==>
      && |r.value.fontData| == |m.face.glyphs|
      && |r.value.fontCurves| == CurveTotal(m.face.glyphs)
      && |r.value.orderingList| == OrderingTotal(m.face.glyphs)
  {
    var unitsPerEm := m.face.unitsPerEm;
    var glyphs := m.face.glyphs;
    var tables := Tables([], [], []);
    var curvesIndex: nat := 0;
    var orderingIndex: nat := 0;
    var glyphId := 0;
    assert glyphs[..0] == [];
    while glyphId < |glyphs|
      invariant glyphId <= |glyphs|
      invariant Build(unitsPerEm, glyphs[..glyphId]) == Done(tables)
      invariant curvesIndex == |tables.curves|
      invariant orderingIndex == |tables.ordering|
    {
      BuildStep(unitsPerEm, glyphs, glyphId, tables);
      var next;
      next, curvesIndex, orderingIndex := ProcessGlyph(unitsPerEm, tables, curvesIndex, orderingIndex, glyphs[glyphId]);
      if next.Panicked? {
        PreprocessPanics(m, glyphId + 1);
        return Panicked(next.fault);
      }
      tables := next.value;
      glyphId := glyphId + 1;
    }
    assert glyphs[..glyphId] == glyphs;
    PreprocessFrom(m, tables);
    r := Done(Manager(m.face, tables.fontData, tables.curves, tables.ordering));
  }
}
