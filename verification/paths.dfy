/** The two path representations the converter passes between libraries:
    the absolute drawing commands the shape normalisers append to a pysvg
    `Path`, and the typed segments `svg.path` parses a path's `d` string
    into. Both libraries are outside the model; `Bridge` states the one
    assumption made about them (see its comment). */
module Paths {

  /** A point of the plane. `svg.path` hands points over as complex numbers:
      `x` is the real part and `y` the imaginary part. */
  datatype Point = Point(x: real, y: real)

  /** One absolute command of a pysvg path. */
  datatype Command =
    | MoveTo(to: Point)
    | LineTo(to: Point)
    | CubicTo(c1: Point, c2: Point, to: Point)

  /** One segment of a path parsed by `svg.path`. Elliptical arcs are parsed
      too, but the converter never draws them. */
  datatype Segment =
    | Line(start: Point, end: Point)
    | QuadraticBezier(start: Point, control: Point, end: Point)
    | CubicBezier(start: Point, control1: Point, control2: Point, end: Point)
    | Arc(start: Point, radius: Point, rotation: real, largeArc: bool, sweep: bool, end: Point)

  /** No command moves the pen without drawing. */
  predicate DrawsOnly(cmds: seq<Command>) {
    forall i :: 0 <= i < |cmds| ==> !cmds[i].MoveTo?
  }

  /** Consecutive segments meet: each starts where the previous one ends. */
  predicate Chained(segs: seq<Segment>) {
    forall i :: 0 < i < |segs| ==> segs[i - 1].end == segs[i].start
  }

  /** The segment a drawing command yields when the pen is at `from`. */
  function SegmentOf(from: Point, cmd: Command): (r: Segment)
    requires !cmd.MoveTo?
    ensures r.start == from && r.end == cmd.to
  {
    match cmd
    case LineTo(p) => Line(from, p)
    case CubicTo(c1, c2, p) => CubicBezier(from, c1, c2, p)
  }

  /** Number of drawing (non-move) commands. */
  function DrawCount(cmds: seq<Command>): nat {
    if |cmds| == 0 then 0
    else (if cmds[0].MoveTo? then 0 else 1) + DrawCount(cmds[1..])
  }

  /** What writing the commands into a `d` string and parsing it back with
      `svg.path` yields, ASSUMING that a move only sets the current point
      and every line or cubic command becomes one segment from the current
      point. This is an `svg.path` whose `parse_path` yields no `Move` or
      `Close` segment objects, as in its 2.x releases. Neither library is
      part of this model. */
  function Bridge(cmds: seq<Command>, current: Point): (r: seq<Segment>)
    ensures |r| == DrawCount(cmds)
  {
    if |cmds| == 0 then []
    else match cmds[0]
      case MoveTo(p) => Bridge(cmds[1..], p)
      case LineTo(p) => [Line(current, p)] + Bridge(cmds[1..], p)
      case CubicTo(c1, c2, p) => [CubicBezier(current, c1, c2, p)] + Bridge(cmds[1..], p)
  }

  /** The segments of a normalised shape path, which always starts with a move. */
  function Segments(cmds: seq<Command>): seq<Segment> {
    Bridge(cmds, Point(0.0, 0.0))
  }

  /** After drawing commands only, the bridge yields one segment per command,
      each from the previous command's end point (the first from the pen). */
  lemma {:induction false} BridgeDraws(cmds: seq<Command>, current: Point)
    requires DrawsOnly(cmds)
    ensures |Bridge(cmds, current)| == |cmds|
    ensures forall i :: 0 <= i < |cmds| ==>
      Bridge(cmds, current)[i] == SegmentOf(if i == 0 then current else cmds[i - 1].to, cmds[i])
  {
    if |cmds| > 0 {
      var rest := cmds[1..];
      assert DrawsOnly(rest) by {
        forall i | 0 <= i < |rest| ensures !rest[i].MoveTo? { assert rest[i] == cmds[i + 1]; }
      }
      BridgeDraws(rest, cmds[0].to);
      assert !cmds[0].MoveTo?;
      var r := Bridge(cmds, current);
      assert r == [SegmentOf(current, cmds[0])] + Bridge(rest, cmds[0].to);
      forall i | 0 < i < |cmds|
        ensures r[i] == SegmentOf(cmds[i - 1].to, cmds[i])
      {
        assert r[i] == Bridge(rest, cmds[0].to)[i - 1];
        assert rest[i - 1] == cmds[i];
        if i > 1 { assert rest[i - 2] == cmds[i - 1]; }
      }
    }
  }

  /** A path of one move followed by drawing commands becomes a chain of
      segments starting at the move's point and ending at the last
      command's point. */
  lemma MoveThenDraws(p: Point, draws: seq<Command>)
    requires DrawsOnly(draws) && |draws| > 0
    ensures var segs := Segments([MoveTo(p)] + draws);
      && |segs| == |draws|
      && Chained(segs)
      && segs[0].start == p
      && segs[|segs| - 1].end == draws[|draws| - 1].to
  {
    var cmds := [MoveTo(p)] + draws;
    assert cmds[1..] == draws;
    var segs := Bridge(draws, p);
    assert Segments(cmds) == segs;
    BridgeDraws(draws, p);
    forall i | 0 < i < |segs|
      ensures segs[i - 1].end == segs[i].start
    {
      assert segs[i - 1] == SegmentOf(if i - 1 == 0 then p else draws[i - 2].to, draws[i - 1]);
    }
    var n := |draws| - 1;
    assert segs[n] == SegmentOf(if n == 0 then p else draws[n - 1].to, draws[n]);
  }
}
