/** Turning one glyph's recorded commands into its run of quadratic curves
    and its ordering block. */
module GlyphCurves {
  import opened Utils
  import opened FontOutline
  import opened CurveOrdering

  /** One curve record `[c1x, c1y, ex, ey]`: control point then end point, in
      em units relative to the glyph's bounding-box minimum. The start point
      is implicit: the end point of the curve before it. */
  datatype Curve = Curve(c1x: real, c1y: real, ex: real, ey: real)

  /** The marker pushed for a contour start: control point `(-1, -1)` and the
      new current point as its end point. */
  function Sentinel(x: real, y: real): Curve {
    Curve(-1.0, -1.0, x, y)
  }

  /** How design units map to glyph-local em units: divide by units-per-em,
      then subtract the normalised bounding-box minimum. */
  datatype Frame = Frame(unitsPerEm: real, originX: real, originY: real)

  function NormX(f: Frame, a: real): real
    requires f.unitsPerEm > 0.0
  {
    a / f.unitsPerEm - f.originX
  }

  function NormY(f: Frame, b: real): real
    requires f.unitsPerEm > 0.0
  {
    b / f.unitsPerEm - f.originY
  }

  /** The state carried across one glyph's commands: the current point, the
      curves pushed so far and the unsorted ordering entries. */
  datatype Pen = Pen(lastX: real, lastY: real, curves: seq<Curve>, infos: seq<Info>)

  /** Processes one command. A cubic never reaches this point. */
  function Step(f: Frame, p: Pen, c: Command): Pen
    requires f.unitsPerEm > 0.0
    requires !c.CurveTo?
  {
    match c
    case MoveTo(a, b) =>
      var x := NormX(f, a);
      var y := NormY(f, b);
      Pen(x, y, p.curves + [Sentinel(x, y)], p.infos)
    case LineTo(a, b) =>
      var x2 := NormX(f, a);
      var y2 := NormY(f, b);
      var x1 := (x2 + p.lastX) / 2.0;
      var y1 := (y2 + p.lastY) / 2.0;
      Pen(x2, y2, p.curves + [Curve(x1, y1, x2, y2)],
          p.infos + [Info(|p.curves|, Max3(p.lastX, x1, x2))])
    case QuadTo(a1, b1, a, b) =>
      var x1 := NormX(f, a1);
      var y1 := NormY(f, b1);
      var x2 := NormX(f, a);
      var y2 := NormY(f, b);
      Pen(x2, y2, p.curves + [Curve(x1, y1, x2, y2)],
          p.infos + [Info(|p.curves|, Max3(p.lastX, x1, x2))])
    case Close => p
  }

  /** The pen after all of `cmds`, starting from the point (0, 0). */
  function Trace(f: Frame, cmds: seq<Command>): Pen
    requires f.unitsPerEm > 0.0
    requires NoCubic(cmds)
  {
    if |cmds| == 0 then Pen(0.0, 0.0, [], [])
    else
      var n := |cmds| - 1;
      NoCubicPrefix(cmds, n);
      Step(f, Trace(f, cmds[..n]), cmds[n])
  }

  /** Processing the command at position `j` is one more step on the pen
      left by the commands before it. */
  lemma TracePrefixStep(f: Frame, cmds: seq<Command>, j: nat)
    requires f.unitsPerEm > 0.0
    requires NoCubic(cmds) && j < |cmds|
    ensures NoCubic(cmds[..j]) && NoCubic(cmds[..j + 1])
    ensures Trace(f, cmds[..j + 1]) == Step(f, Trace(f, cmds[..j]), cmds[j])
  {
    NoCubicPrefix(cmds, j);
    NoCubicPrefix(cmds, j + 1);
    assert cmds[..j + 1][..j] == cmds[..j];
  }

  /** The commands that push a curve, in order: every command but `Close`
      (and the cubic, which never gets this far). */
  function Drawn(cmds: seq<Command>): (d: seq<Command>)
    ensures |d| <= |cmds|
    ensures forall k :: 0 <= k < |d| ==> d[k].IsDrawn()
  {
    if |cmds| == 0 then []
    else
      var n := |cmds| - 1;
      Drawn(cmds[..n]) + (if cmds[n].IsDrawn() then [cmds[n]] else [])
  }

  /** Number of line and quadratic commands in `cmds`. */
  function SegmentCount(cmds: seq<Command>): (r: nat)
    ensures r <= |cmds|
  {
    if |cmds| == 0 then 0
    else
      var n := |cmds| - 1;
      SegmentCount(cmds[..n]) + (if cmds[n].IsSegment() then 1 else 0)
  }

  /** The positions, in ascending order, of the segments among `d`. */
  function SegmentOffsets(d: seq<Command>): seq<nat> {
    if |d| == 0 then []
    else
      var n := |d| - 1;
      SegmentOffsets(d[..n]) + (if d[n].IsSegment() then [n] else [])
  }

  /** The offsets of a list of ordering entries, in list order. */
  function Offsets(s: seq<Info>): (r: seq<nat>)
    ensures |r| == |s|
    ensures forall i :: 0 <= i < |s| ==> r[i] == s[i].offset
  {
    seq(|s|, i requires 0 <= i < |s| => s[i].offset)
  }

  /** The X coordinate of the implicit start point of curve `k`: the end point
      of curve `k - 1`, or 0 for the first curve of a glyph. */
  function PrevX(curves: seq<Curve>, k: nat): real
    requires k <= |curves|
  {
    if k == 0 then 0.0 else curves[k - 1].ex
  }

  function PrevY(curves: seq<Curve>, k: nat): real
    requires k <= |curves|
  {
    if k == 0 then 0.0 else curves[k - 1].ey
  }

  /** The sort key of curve `k`: the largest X among its start, control and
      end points. */
  function KeyAt(curves: seq<Curve>, k: nat): real
    requires k < |curves|
  {
    Max3(PrevX(curves, k), curves[k].c1x, curves[k].ex)
  }

  /** Curve `k` is what drawn command `d` must produce: the sentinel for a
      move, the copied control and end point for a quadratic, and for a line
      the new end point with the midpoint of the segment as control point. */
  predicate CurveFor(f: Frame, d: Command, curves: seq<Curve>, k: nat)
    requires f.unitsPerEm > 0.0
    requires k < |curves|
  {
    match d
    case MoveTo(a, b) => curves[k] == Sentinel(NormX(f, a), NormY(f, b))
    case LineTo(a, b) =>
      && curves[k].ex == NormX(f, a) && curves[k].ey == NormY(f, b)
      && curves[k].c1x == (PrevX(curves, k) + curves[k].ex) / 2.0
      && curves[k].c1y == (PrevY(curves, k) + curves[k].ey) / 2.0
    case QuadTo(a1, b1, a, b) => curves[k] == Curve(NormX(f, a1), NormY(f, b1), NormX(f, a), NormY(f, b))
    case _ => false
  }

  /** `SegmentOffsets` lists exactly the positions of segments, ascending. */
  lemma {:induction false} SegmentOffsetsSpec(d: seq<Command>)
    ensures forall i :: 0 <= i < |SegmentOffsets(d)| ==>
      SegmentOffsets(d)[i] < |d| && d[SegmentOffsets(d)[i]].IsSegment()
    ensures forall i, j :: 0 <= i < j < |SegmentOffsets(d)| ==> SegmentOffsets(d)[i] < SegmentOffsets(d)[j]
    ensures forall k :: 0 <= k < |d| && d[k].IsSegment() ==> k in SegmentOffsets(d)
  {
    if |d| > 0 {
      var n := |d| - 1;
      SegmentOffsetsSpec(d[..n]);
      forall k | 0 <= k < |d| && d[k].IsSegment() ensures k in SegmentOffsets(d) {
        if k < n {
          assert d[..n][k] == d[k];
        }
      }
    }
  }

  /** Appending curves does not change what an earlier curve matches. */
  lemma CurveForExtend(f: Frame, d: Command, cs: seq<Curve>, more: seq<Curve>, k: nat)
    requires f.unitsPerEm > 0.0
    requires k < |cs|
    requires CurveFor(f, d, cs, k)
    ensures CurveFor(f, d, cs + more, k)
  {
    assert (cs + more)[k] == cs[k];
    if k > 0 {
      assert (cs + more)[k - 1] == cs[k - 1];
    }
  }

  /** Appending curves does not change the key of an earlier curve. */
  lemma KeyAtExtend(cs: seq<Curve>, more: seq<Curve>, k: nat)
    requires k < |cs|
    ensures KeyAt(cs + more, k) == KeyAt(cs, k)
  {
    assert (cs + more)[k] == cs[k];
    if k > 0 {
      assert (cs + more)[k - 1] == cs[k - 1];
    }
  }

  /** The glyph's curves and current point follow the drawn commands one by
      one: each curve is what its command prescribes, with the previous
      curve's end point as the start point of a line. */
  lemma {:induction false} TraceCurves(f: Frame, cmds: seq<Command>)
    requires f.unitsPerEm > 0.0
    requires NoCubic(cmds)
    ensures var t := Trace(f, cmds);
      && |t.curves| == |Drawn(cmds)|
      && t.lastX == PrevX(t.curves, |t.curves|)
      && t.lastY == PrevY(t.curves, |t.curves|)
      && (forall k :: 0 <= k < |t.curves| ==> CurveFor(f, Drawn(cmds)[k], t.curves, k))
  {
    if |cmds| > 0 {
      var n := |cmds| - 1;
      var init := cmds[..n];
      NoCubicPrefix(cmds, n);
      TraceCurves(f, init);
      var p := Trace(f, init);
      var t := Trace(f, cmds);
      var c := cmds[n];
      var d0 := Drawn(init);
      var d := Drawn(cmds);
      assert t == Step(f, p, c);
      if c.IsDrawn() {
        var last := t.curves[|p.curves|];
        assert t.curves == p.curves + [last];
        assert d == d0 + [c];
        forall k | 0 <= k < |t.curves| ensures CurveFor(f, d[k], t.curves, k) {
          if k < |p.curves| {
            assert d[k] == d0[k];
            CurveForExtend(f, d0[k], p.curves, [last], k);
          }
        }
      } else {
        assert d == d0;
      }
    }
  }

  /** The glyph's ordering entries name exactly the positions of its
      segments among the drawn commands, in emission order. */
  lemma {:induction false} TraceOffsets(f: Frame, cmds: seq<Command>)
    requires f.unitsPerEm > 0.0
    requires NoCubic(cmds)
    ensures var t := Trace(f, cmds);
      && Offsets(t.infos) == SegmentOffsets(Drawn(cmds))
      && |t.infos| == SegmentCount(cmds)
  {
    if |cmds| > 0 {
      var n := |cmds| - 1;
      var init := cmds[..n];
      NoCubicPrefix(cmds, n);
      TraceOffsets(f, init);
      TraceCurves(f, init);
      var p := Trace(f, init);
      var t := Trace(f, cmds);
      var c := cmds[n];
      var d0 := Drawn(init);
      var d := Drawn(cmds);
      assert t == Step(f, p, c);
      if c.IsSegment() {
        assert d == d0 + [c];
        assert d[..|d| - 1] == d0 && d[|d| - 1] == c;
        assert SegmentOffsets(d) == SegmentOffsets(d0) + [|d0|];
        assert t.infos == p.infos + [t.infos[|p.infos|]];
        assert Offsets(t.infos) == Offsets(p.infos) + [|d0|];
      } else if c.IsDrawn() {
        assert d == d0 + [c];
        assert d[..|d| - 1] == d0 && d[|d| - 1] == c;
        assert t.infos == p.infos;
      } else {
        assert d == d0;
      }
    }
  }

  /** Each ordering entry names a curve of the glyph and carries that curve's
      key: the largest X among its start, control and end points. */
  lemma {:induction false} TraceKeys(f: Frame, cmds: seq<Command>)
    requires f.unitsPerEm > 0.0
    requires NoCubic(cmds)
    ensures var t := Trace(f, cmds);
      forall i :: 0 <= i < |t.infos| ==>
        t.infos[i].offset < |t.curves| && t.infos[i].key == KeyAt(t.curves, t.infos[i].offset)
  {
    if |cmds| > 0 {
      var n := |cmds| - 1;
      var init := cmds[..n];
      NoCubicPrefix(cmds, n);
      TraceKeys(f, init);
      TraceCurves(f, init);
      var p := Trace(f, init);
      var t := Trace(f, cmds);
      var c := cmds[n];
      assert t == Step(f, p, c);
      if c.IsDrawn() {
        var last := t.curves[|p.curves|];
        assert t.curves == p.curves + [last];
        forall i | 0 <= i < |p.infos|
          ensures t.infos[i].offset < |t.curves| && t.infos[i].key == KeyAt(t.curves, t.infos[i].offset)
        {
          assert t.infos[i] == p.infos[i];
          KeyAtExtend(p.curves, [last], p.infos[i].offset);
        }
      }
    }
  }

  /** The glyph's ordering entries name exactly the positions of its segments,
      in emission order, and each carries the key of the curve it names. */
  lemma TraceInfos(f: Frame, cmds: seq<Command>)
    requires f.unitsPerEm > 0.0
    requires NoCubic(cmds)
    ensures var t := Trace(f, cmds);
      && Offsets(t.infos) == SegmentOffsets(Drawn(cmds))
      && |t.infos| == SegmentCount(cmds)
      && (forall i :: 0 <= i < |t.infos| ==>
            t.infos[i].offset < |t.curves| && t.infos[i].key == KeyAt(t.curves, t.infos[i].offset))
  {
    TraceOffsets(f, cmds);
    TraceKeys(f, cmds);
  }

  /** The glyph's block of the ordering list: a count header, then the
      glyph-relative offsets sorted by descending key; every value goes
      through the 32-bit cast. */
  function Block(infos: seq<Info>): (b: seq<nat>)
    ensures |b| == |infos| + 1
  {
    var sorted := SortByKeyDescending(infos);
    [AsU32(|infos|)] + seq(|sorted|, i requires 0 <= i < |sorted| => AsU32(sorted[i].offset))
  }

  /** Every offset in `offs` addresses a curve of `curves`. */
  predicate InRange(offs: seq<nat>, curves: seq<Curve>) {
    forall k :: 0 <= k < |offs| ==> offs[k] < |curves|
  }

  /** Offsets ordered by descending key, ties in ascending offset order. */
  predicate OrderedByKey(offs: seq<nat>, curves: seq<Curve>)
    requires InRange(offs, curves)
  {
    forall i, j :: 0 <= i < j < |offs| ==>
      || KeyAt(curves, offs[i]) > KeyAt(curves, offs[j])
      || (KeyAt(curves, offs[i]) == KeyAt(curves, offs[j]) && offs[i] < offs[j])
  }

  /** With offsets that fit in 32 bits, entry `k + 1` of the block is the
      offset of the `k`-th sorted entry. */
  lemma BlockEntry(infos: seq<Info>, k: nat)
    requires k < |infos|
    requires forall i :: 0 <= i < |infos| ==> infos[i].offset < U32_MODULUS
    ensures Block(infos)[k + 1] == SortByKeyDescending(infos)[k].offset
  {
    var sorted := SortByKeyDescending(infos);
    assert sorted[k] in multiset(infos);
  }

  /** When every value fits in 32 bits the casts are the identity: the block
      is the count followed by the sorted offsets. */
  lemma BlockWithoutTruncation(infos: seq<Info>)
    requires |infos| < U32_MODULUS
    requires forall i :: 0 <= i < |infos| ==> infos[i].offset < U32_MODULUS
    ensures Block(infos)[0] == |infos|
    ensures forall k :: 0 <= k < |infos| ==> Block(infos)[k + 1] == SortByKeyDescending(infos)[k].offset
  {
    forall k | 0 <= k < |infos| ensures Block(infos)[k + 1] == SortByKeyDescending(infos)[k].offset {
      BlockEntry(infos, k);
    }
  }

  /** Each entry names a segment curve of the glyph and carries its key. */
  predicate EntriesName(infos: seq<Info>, curves: seq<Curve>, d: seq<Command>) {
    forall i :: 0 <= i < |infos| ==>
      && infos[i].offset < |d|
      && infos[i].offset < |curves|
      && d[infos[i].offset].IsSegment()
      && infos[i].key == KeyAt(curves, infos[i].offset)
  }

  /** Sorting keeps the entries, so they still name segments. */
  lemma SortedEntriesName(infos: seq<Info>, curves: seq<Curve>, d: seq<Command>)
    requires EntriesName(infos, curves, d)
    ensures EntriesName(SortByKeyDescending(infos), curves, d)
  {
    var sorted := SortByKeyDescending(infos);
    forall k | 0 <= k < |sorted|
      ensures && sorted[k].offset < |d| && sorted[k].offset < |curves|
              && d[sorted[k].offset].IsSegment()
              && sorted[k].key == KeyAt(curves, sorted[k].offset)
    {
      assert sorted[k] in multiset(infos);
    }
  }

  /** The offsets after the header address segments. */
  lemma BlockAddressesSegments(infos: seq<Info>, curves: seq<Curve>, d: seq<Command>)
    requires |d| < U32_MODULUS
    requires EntriesName(infos, curves, d)
    ensures var b := Block(infos);
      && (forall k :: 1 <= k < |b| ==> b[k] < |d| && b[k] < |curves| && d[b[k]].IsSegment())
  {
    var sorted := SortByKeyDescending(infos);
    SortedEntriesName(infos, curves, d);
    var b := Block(infos);
    forall k | 1 <= k < |b| ensures b[k] < |d| && b[k] < |curves| && d[b[k]].IsSegment() {
      BlockEntry(infos, k - 1);
    }
  }

  /** The offsets after the header are distinct and in stable key order. */
  lemma BlockOrdered(infos: seq<Info>, curves: seq<Curve>, d: seq<Command>)
    requires |d| < U32_MODULUS
    requires IncreasingOffsets(infos)
    requires EntriesName(infos, curves, d)
    ensures var b := Block(infos);
      && (forall i, j :: 1 <= i < j < |b| ==> b[i] != b[j])
      && InRange(b[1..], curves)
      && OrderedByKey(b[1..], curves)
  {
    var sorted := SortByKeyDescending(infos);
    SortedEntriesName(infos, curves, d);
    SortIsStable(infos);
    var b := Block(infos);
    var os := b[1..];
    forall k | 0 <= k < |os| ensures os[k] == sorted[k].offset {
      BlockEntry(infos, k);
    }
    assert forall i, j :: 1 <= i < j < |b| ==> b[i] != b[j] by {
      forall i, j | 1 <= i < j < |b| ensures b[i] != b[j] {
        assert b[i] == os[i - 1] && b[j] == os[j - 1];
      }
    }
    assert OrderedByKey(os, curves) by {
      forall i, j | 0 <= i < j < |os|
        ensures || KeyAt(curves, os[i]) > KeyAt(curves, os[j])
                || (KeyAt(curves, os[i]) == KeyAt(curves, os[j]) && os[i] < os[j])
      {
      }
    }
  }

  /** Every segment position of the glyph appears among the block's offsets. */
  lemma BlockComplete(infos: seq<Info>, o: nat)
    requires forall i :: 0 <= i < |infos| ==> infos[i].offset < U32_MODULUS
    requires o in Offsets(infos)
    ensures o in Block(infos)[1..]
  {
    var sorted := SortByKeyDescending(infos);
    var i :| 0 <= i < |infos| && infos[i].offset == o;
    assert infos[i] in multiset(sorted);
    var k :| 0 <= k < |sorted| && sorted[k] == infos[i];
    BlockEntry(infos, k);
    assert Block(infos)[1..][k] == o;
  }

  /** The header of a glyph's block counts its segments, and every offset
      after it addresses one of the glyph's segment curves. */
  lemma BlockNamesSegments(f: Frame, cmds: seq<Command>)
    requires f.unitsPerEm > 0.0
    requires NoCubic(cmds)
    requires |cmds| < U32_MODULUS
    ensures var t := Trace(f, cmds);
      var b := Block(t.infos);
      var d := Drawn(cmds);
      && |t.curves| == |d|
      && |b| == SegmentCount(cmds) + 1
      && b[0] == SegmentCount(cmds)
      && (forall k :: 1 <= k < |b| ==> b[k] < |d| && d[b[k]].IsSegment())
  {
    var t := Trace(f, cmds);
    var d := Drawn(cmds);
    TraceCurves(f, cmds);
    TraceInfos(f, cmds);
    SegmentOffsetsSpec(d);
    var offs := SegmentOffsets(d);
    assert EntriesName(t.infos, t.curves, d) by {
      forall i | 0 <= i < |t.infos| ensures t.infos[i].offset < |d| && d[t.infos[i].offset].IsSegment() {
        assert offs[i] == t.infos[i].offset;
      }
    }
    BlockWithoutTruncation(t.infos);
    BlockAddressesSegments(t.infos, t.curves, d);
  }

  /** The block of one glyph is `[n, o_1, ..., o_n]`: `n` counts its line and
      quadratic commands, and the `o_k` are the positions of exactly those
      curves within the glyph's run (never a contour-start sentinel), each
      once, ordered by descending key with ties in emission order. */
  lemma BlockLayout(f: Frame, cmds: seq<Command>)
    requires f.unitsPerEm > 0.0
    requires NoCubic(cmds)
    requires |cmds| < U32_MODULUS
    ensures var t := Trace(f, cmds);
      var b := Block(t.infos);
      var d := Drawn(cmds);
      && |t.curves| == |d|
      && |b| == SegmentCount(cmds) + 1
      && b[0] == SegmentCount(cmds)
      && (forall k :: 1 <= k < |b| ==> b[k] < |d| && d[b[k]].IsSegment())
      && (forall o :: 0 <= o < |d| && d[o].IsSegment() ==> o in b[1..])
      && (forall i, j :: 1 <= i < j < |b| ==> b[i] != b[j])
      && InRange(b[1..], t.curves)
      && OrderedByKey(b[1..], t.curves)
  {
    var t := Trace(f, cmds);
    var d := Drawn(cmds);
    TraceCurves(f, cmds);
    TraceInfos(f, cmds);
    SegmentOffsetsSpec(d);
    var offs := SegmentOffsets(d);
    assert IncreasingOffsets(t.infos) by {
      forall i, j | 0 <= i < j < |t.infos| ensures t.infos[i].offset < t.infos[j].offset {
        assert offs[i] == t.infos[i].offset && offs[j] == t.infos[j].offset;
      }
    }
    assert EntriesName(t.infos, t.curves, d) by {
      forall i | 0 <= i < |t.infos| ensures t.infos[i].offset < |d| && d[t.infos[i].offset].IsSegment() {
        assert offs[i] == t.infos[i].offset;
      }
    }
    BlockWithoutTruncation(t.infos);
    BlockAddressesSegments(t.infos, t.curves, d);
    BlockOrdered(t.infos, t.curves, d);
    forall o | 0 <= o < |d| && d[o].IsSegment() ensures o in Block(t.infos)[1..] {
      BlockComplete(t.infos, o);
    }
  }
}
