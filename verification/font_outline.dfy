/** The outline command recorder: an append-only buffer that receives the
    font parser's path callbacks for one glyph, in font design units. */
module FontOutline {
  import opened Panics

  /** One recorded path command; coordinates are in font design units. */
  datatype Command =
    | MoveTo(x: real, y: real)
    | LineTo(x: real, y: real)
    | QuadTo(x1: real, y1: real, x: real, y: real)
    | CurveTo(x1: real, y1: real, x2: real, y2: real, x: real, y: real)
    | Close
  {
    /** A command that emits a curve carrying geometry (not a contour start). */
    predicate IsSegment() {
      LineTo? || QuadTo?
    }

    /** A command that emits a curve record of any kind. */
    predicate IsDrawn() {
      MoveTo? || LineTo? || QuadTo?
    }
  }

  /** No cubic command anywhere in `cmds`. */
  predicate NoCubic(cmds: seq<Command>) {
    forall i :: 0 <= i < |cmds| ==> !cmds[i].CurveTo?
  }

  /** Removing the last command of a cubic-free list leaves it cubic-free. */
  lemma NoCubicPrefix(cmds: seq<Command>, n: nat)
    requires NoCubic(cmds)
    requires n <= |cmds|
    ensures NoCubic(cmds[..n])
  {
    forall i | 0 <= i < n ensures !cmds[..n][i].CurveTo? {
      assert cmds[..n][i] == cmds[i];
    }
  }

  /** The recorder's state: the commands received so far, oldest first. */
  datatype Recorder = Recorder(points: seq<Command>)

  function New(): (r: Recorder)
    ensures |r.points| == 0
  {
    Recorder([])
  }

  /** Trimming the buffer to size leaves the recorded commands as they were. */
  function Finish(rec: Recorder): (r: Recorder)
    ensures r.points == rec.points
  {
    rec
  }

  /** The commands in the order they were received. */
  function PointCommands(rec: Recorder): (r: seq<Command>)
    ensures |r| == |rec.points|
    ensures forall i :: 0 <= i < |r| ==> r[i] == rec.points[i]
  {
    rec.points
  }

  function MoveTo(rec: Recorder, x: real, y: real): (r: Recorder)
    ensures |r.points| == |rec.points| + 1
    ensures r.points[..|rec.points|] == rec.points
    ensures r.points[|rec.points|] == Command.MoveTo(x, y)
  {
    Recorder(rec.points + [Command.MoveTo(x, y)])
  }

  function LineTo(rec: Recorder, x: real, y: real): (r: Recorder)
    ensures |r.points| == |rec.points| + 1
    ensures r.points[..|rec.points|] == rec.points
    ensures r.points[|rec.points|] == Command.LineTo(x, y)
  {
    Recorder(rec.points + [Command.LineTo(x, y)])
  }

  function QuadTo(rec: Recorder, x1: real, y1: real, x: real, y: real): (r: Recorder)
    ensures |r.points| == |rec.points| + 1
    ensures r.points[..|rec.points|] == rec.points
    ensures r.points[|rec.points|] == Command.QuadTo(x1, y1, x, y)
  {
    Recorder(rec.points + [Command.QuadTo(x1, y1, x, y)])
  }

  /** The cubic callback appends the command and then panics, so no recorder
      survives it and the appended command is never observed. */
  function CurveTo(rec: Recorder, x1: real, y1: real, x2: real, y2: real, x: real, y: real): (r: Result<Recorder>)
    ensures r.Panicked? && r.fault == CubicSegment
  {
    Panicked(CubicSegment)
  }

  function Close(rec: Recorder): (r: Recorder)
    ensures |r.points| == |rec.points| + 1
    ensures r.points[..|rec.points|] == rec.points
    ensures r.points[|rec.points|] == Command.Close
  {
    Recorder(rec.points + [Command.Close])
  }

  /** Delivers one parser event to the matching recorder callback. */
  function Deliver(rec: Recorder, ev: Command): (r: Result<Recorder>)
  {
    match ev
    case MoveTo(x, y) => Done(MoveTo(rec, x, y))
    case LineTo(x, y) => Done(LineTo(rec, x, y))
    case QuadTo(x1, y1, x, y) => Done(QuadTo(rec, x1, y1, x, y))
    case CurveTo(x1, y1, x2, y2, x, y) => CurveTo(rec, x1, y1, x2, y2, x, y)
    case Close => Done(Close(rec))
  }

  /** Feeds a whole event stream, oldest first, into a fresh recorder, as the
      parser's outline decomposition does for one glyph. */
  function Record(events: seq<Command>): Result<Recorder>
  {
    if |events| == 0 then Done(New())
    else
      var rec :- Record(events[..|events| - 1]);
      Deliver(rec, events[|events| - 1])
  }

  /** Delivering one event appends it, unless it is a cubic segment. */
  lemma DeliverAppends(rec: Recorder, ev: Command)
    ensures Deliver(rec, ev).Done? <==> !ev.CurveTo?
    ensures Deliver(rec, ev).Done? ==> Deliver(rec, ev).value.points == rec.points + [ev]
  {
  }

  /** Recording succeeds exactly when the stream has no cubic segment, and
      then replaying the recorder yields the stream back, in order. */
  lemma {:induction false} RecordRoundTrip(events: seq<Command>)
    ensures Record(events).Done? <==> NoCubic(events)
    ensures Record(events).Done? ==> PointCommands(Finish(Record(events).value)) == events
  {
    if |events| > 0 {
      var n := |events| - 1;
      var init := events[..n];
      RecordRoundTrip(init);
      var r0 := Record(init);
      if r0.Done? {
        DeliverAppends(r0.value, events[n]);
        assert Record(events) == Deliver(r0.value, events[n]);
        assert events == init + [events[n]];
      }
      if NoCubic(events) {
        NoCubicPrefix(events, n);
      }
    }
  }
}
