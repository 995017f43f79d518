/** `__append_path_to_dxf` of `src/svg_to_dxf.py`: every segment of a parsed
    path becomes at most one DXF entity in the modelspace, with its points
    mapped through the current transform. The modelspace and the debug stream
    are modelled as the two sequences of an `Output`. */
module Emitter {
  import opened Transforms
  import opened Paths

  /** A DXF entity as `ezdxf` is asked to create it: a line between two
      2-tuples, or a spline through 3-tuples with an explicit knot vector. */
  datatype Entity =
    | DxfLine(start: seq<real>, end: seq<real>)
    | Spline(controlPoints: seq<seq<real>>, knots: seq<real>)

  /** One object written to the debug stream: a path segment, or the tag of
      an element the converter does not handle. */
  datatype Record = SegmentRecord(segment: Segment) | ElementRecord(tag: string)

  /** What a conversion appends: entities to the modelspace, records to the
      debug stream, each in order. */
  datatype Output = Output(entities: seq<Entity>, log: seq<Record>)

  const NoOutput: Output := Output([], [])

  /** `a` followed by `b`. */
  function Then(a: Output, b: Output): Output {
    Output(a.entities + b.entities, a.log + b.log)
  }

  /** The knot vector every spline gets: a clamped cubic over `[0, 1]`, so
      the four control points are those of one cubic Bezier curve. */
  const Knots: seq<real> := [0.0, 0.0, 0.0, 0.0, 1.0, 1.0, 1.0, 1.0]

  /** `_complex_to_2tuple`: the point mapped through `t`, as `(x, y)`. */
  function Point2(t: Transform, p: Point): (r: seq<real>)
    ensures |r| == 2
    ensures r[0] == t.m[0] * p.x + t.m[3] * p.y + t.m[6]
    ensures r[1] == t.m[1] * p.x + t.m[4] * p.y + t.m[7]
  {
    MultPoint(t, [p.x, p.y])
  }

  /** `_complex_to_3tuple`: the same point with a zero `z`. */
  function Point3(t: Transform, p: Point): (r: seq<real>)
    ensures |r| == 3 && r[2] == 0.0
    ensures r[0] == Point2(t, p)[0] && r[1] == Point2(t, p)[1]
  {
    MultPoint(t, [p.x, p.y, 0.0])
  }

  /** The shape of every entity the emitter creates. */
  predicate WellFormedEntity(e: Entity) {
    match e
    case DxfLine(s, f) => |s| == 2 && |f| == 2
    case Spline(cps, knots) =>
      && |cps| == 4 && knots == Knots
      && forall i :: 0 <= i < 4 ==> |cps[i]| == 3 && cps[i][2] == 0.0
  }

  predicate WellFormed(es: seq<Entity>) {
    forall i :: 0 <= i < |es| ==> WellFormedEntity(es[i])
  }

  /** Well-formed entities stay well formed when appended. */
  lemma WellFormedAppend(a: seq<Entity>, b: seq<Entity>)
    requires WellFormed(a) && WellFormed(b)
    ensures WellFormed(a + b)
  {
    forall i | 0 <= i < |a + b| ensures WellFormedEntity((a + b)[i]) {
      if i >= |a| { assert (a + b)[i] == b[i - |a|]; }
    }
  }

  /** The lines and the two Bezier kinds are drawn; anything else is not. */
  predicate Drawn(s: Segment) {
    s.Line? || s.QuadraticBezier? || s.CubicBezier?
  }

  /** One loop iteration: log the segment, create its entity, or log the
      segment a second time when it is of a kind that is not drawn. A
      quadratic curve gets its one control point twice. */
  function EmitSegment(s: Segment, t: Transform): (r: Output)
    ensures |r.entities| == (if Drawn(s) then 1 else 0)
    ensures WellFormed(r.entities)
    ensures |r.log| > 0 && (forall i :: 0 <= i < |r.log| ==> r.log[i] == SegmentRecord(s))
    ensures |r.log| == (if Drawn(s) then 1 else 2)
  {
    match s
    case Line(a, b) =>
      Output([DxfLine(Point2(t, a), Point2(t, b))], [SegmentRecord(s)])
    case QuadraticBezier(a, c, b) =>
      var control := Point3(t, c);
      Output([Spline([Point3(t, a), control, control, Point3(t, b)], Knots)], [SegmentRecord(s)])
    case CubicBezier(a, c1, c2, b) =>
      Output([Spline([Point3(t, a), Point3(t, c1), Point3(t, c2), Point3(t, b)], Knots)], [SegmentRecord(s)])
    case Arc(_, _, _, _, _, _) =>
      Output([], [SegmentRecord(s), SegmentRecord(s)])
  }

  /** Number of segments that are drawn. */
  function DrawnCount(segs: seq<Segment>): (n: nat)
    ensures n <= |segs|
  {
    if |segs| == 0 then 0 else (if Drawn(segs[0]) then 1 else 0) + DrawnCount(segs[1..])
  }

  /** The whole `for segment in parsed` loop, segment by segment in order. */
  function EmitPath(segs: seq<Segment>, t: Transform): (r: Output)
    ensures |r.entities| == DrawnCount(segs)
    ensures |r.log| == 2 * |segs| - DrawnCount(segs)
    ensures WellFormed(r.entities)
  {
    if |segs| == 0 then NoOutput
    else Then(EmitSegment(segs[0], t), EmitPath(segs[1..], t))
  }

  /** The `for segment in parsed` loop of `__append_path_to_dxf`, appending to the modelspace and the debug stream. */
  method EmitPathLoop(segs: seq<Segment>, t: Transform) returns (entities: seq<Entity>, log: seq<Record>)
    ensures Output(entities, log) == EmitPath(segs, t)
    ensures |entities| == DrawnCount(segs) && WellFormed(entities)
  {
    entities, log := [], [];
    for i := 0 to |segs|
      invariant Output(entities, log) == EmitPath(segs[..i], t)
    {
      var out := EmitSegment(segs[i], t);
      EmitPathAppend(segs[..i], [segs[i]], t);
      assert segs[..i + 1] == segs[..i] + [segs[i]];
      entities, log := entities + out.entities, log + out.log;
    }
    assert segs[..|segs|] == segs;
  }

  /** Emitting a path in two pieces emits the pieces one after the other. */
  lemma {:induction false} EmitPathAppend(a: seq<Segment>, b: seq<Segment>, t: Transform)
    ensures EmitPath(a + b, t) == Then(EmitPath(a, t), EmitPath(b, t))
  {
    if |a| == 0 {
      assert a + b == b;
    } else {
      assert (a + b)[1..] == a[1..] + b;
      EmitPathAppend(a[1..], b, t);
      var head, tail, rest := EmitSegment(a[0], t), EmitPath(a[1..], t), EmitPath(b, t);
      assert EmitPath(a + b, t) == Then(head, Then(tail, rest));
      assert head.entities + (tail.entities + rest.entities) == (head.entities + tail.entities) + rest.entities;
      assert head.log + (tail.log + rest.log) == (head.log + tail.log) + rest.log;
    }
  }

  /** Where segment `i` lands, for any path, arcs included: its entity, if
      it has one, follows those of the drawn segments before it, and its
      one or two debug records follow the records of the segments before it
      (two for every segment that is not drawn, one for every other). */
  lemma EmitPathInPlace(segs: seq<Segment>, t: Transform, i: nat)
    requires i < |segs|
    ensures var out, k := EmitPath(segs, t), DrawnCount(segs[..i]);
      && (Drawn(segs[i]) ==> k < |out.entities| && out.entities[k] == EmitSegment(segs[i], t).entities[0])
      && (!Drawn(segs[i]) ==> DrawnCount(segs[..i + 1]) == k)
      && 2 * i - k + |EmitSegment(segs[i], t).log| <= |out.log|
      && out.log[2 * i - k] == SegmentRecord(segs[i])
      && (!Drawn(segs[i]) ==> out.log[2 * i - k + 1] == SegmentRecord(segs[i]))
  {
    var front, back := segs[..i], segs[i..];
    assert segs == front + back;
    EmitPathAppend(front, back, t);
    assert back[0] == segs[i] && back[1..] == segs[i + 1..];
    var head, tail := EmitSegment(segs[i], t), EmitPath(segs[i + 1..], t);
    assert EmitPath(back, t) == Then(head, tail);
    var out := EmitPath(segs, t);
    var k := DrawnCount(front);
    assert out.entities == EmitPath(front, t).entities + (head.entities + tail.entities);
    assert out.log == EmitPath(front, t).log + (head.log + tail.log);
    assert |EmitPath(front, t).entities| == k && |EmitPath(front, t).log| == 2 * i - k;
    if Drawn(segs[i]) {
      assert out.entities[k] == head.entities[0];
    } else {
      DrawnCountAppend(front, [segs[i]]);
      assert front + [segs[i]] == segs[..i + 1];
      assert out.log[2 * i - k + 1] == head.log[1];
    }
    assert out.log[2 * i - k] == head.log[0];
  }

  /** Every segment is drawn exactly when none is an arc, i.e. exactly when
      the drawn count is the whole length. */
  lemma {:induction false} DrawnCountAll(segs: seq<Segment>)
    ensures DrawnCount(segs) == |segs| <==> forall i :: 0 <= i < |segs| ==> Drawn(segs[i])
  {
    if |segs| > 0 {
      DrawnCountAll(segs[1..]);
      assert forall i :: 1 <= i < |segs| ==> segs[i] == segs[1..][i - 1];
    }
  }

  /** The drawn segments of two runs add up. */
  lemma {:induction false} DrawnCountAppend(a: seq<Segment>, b: seq<Segment>)
    ensures DrawnCount(a + b) == DrawnCount(a) + DrawnCount(b)
  {
    if |a| == 0 {
      assert a + b == b;
    } else {
      assert (a + b)[1..] == a[1..] + b;
      DrawnCountAppend(a[1..], b);
    }
  }

  /** With only drawable segments, the i-th entity is the i-th segment's. */
  lemma {:induction false} EmitPathPointwise(segs: seq<Segment>, t: Transform)
    requires forall i :: 0 <= i < |segs| ==> Drawn(segs[i])
    ensures var es := EmitPath(segs, t).entities;
      |es| == |segs| && forall i :: 0 <= i < |segs| ==> es[i] == EmitSegment(segs[i], t).entities[0]
  {
    if |segs| > 0 {
      EmitPathPointwise(segs[1..], t);
      var head, tail := EmitSegment(segs[0], t).entities, EmitPath(segs[1..], t).entities;
      var es := EmitPath(segs, t).entities;
      assert es == head + tail && |head| == 1;
      forall i | 0 <= i < |segs| ensures es[i] == EmitSegment(segs[i], t).entities[0] {
        if i > 0 { assert es[i] == tail[i - 1] && segs[1..][i - 1] == segs[i]; }
      }
    }
  }

  /** With only drawable segments, each segment is logged once, in order. */
  lemma {:induction false} EmitPathLogsInOrder(segs: seq<Segment>, t: Transform)
    requires forall i :: 0 <= i < |segs| ==> Drawn(segs[i])
    ensures var log := EmitPath(segs, t).log;
      |log| == |segs| && forall i :: 0 <= i < |segs| ==> log[i] == SegmentRecord(segs[i])
  {
    if |segs| > 0 {
      EmitPathLogsInOrder(segs[1..], t);
      var head, tail := EmitSegment(segs[0], t).log, EmitPath(segs[1..], t).log;
      var log := EmitPath(segs, t).log;
      assert log == head + tail && head == [SegmentRecord(segs[0])];
      forall i | 0 <= i < |segs| ensures log[i] == SegmentRecord(segs[i]) {
        if i > 0 { assert log[i] == tail[i - 1] && segs[1..][i - 1] == segs[i]; }
      }
    }
  }

  /** A line is drawn between its transformed end points. */
  lemma LineEndpoints(a: Point, b: Point, t: Transform)
    ensures var e := EmitSegment(Line(a, b), t).entities[0];
      && e.DxfLine?
      && e.start[0] == t.m[0] * a.x + t.m[3] * a.y + t.m[6] && e.start[1] == t.m[1] * a.x + t.m[4] * a.y + t.m[7]
      && e.end[0] == t.m[0] * b.x + t.m[3] * b.y + t.m[6] && e.end[1] == t.m[1] * b.x + t.m[4] * b.y + t.m[7]
  {
  }

  /** A quadratic curve becomes the spline of a cubic whose two inner
      control points are both the transformed control point. */
  lemma QuadLayout(a: Point, c: Point, b: Point, t: Transform)
    ensures EmitSegment(QuadraticBezier(a, c, b), t).entities
         == EmitSegment(CubicBezier(a, c, c, b), t).entities
    ensures var cps := EmitSegment(QuadraticBezier(a, c, b), t).entities[0].controlPoints;
      cps[1] == cps[2] == Point3(t, c)
  {
  }

  /** Every curve becomes one spline with the clamped knot vector, starting
      at the transformed start and ending at the transformed end of its
      segment; a cubic keeps its two control points in order, and a
      quadratic has its one control point in both inner places. */
  lemma SplineLayout(s: Segment, t: Transform)
    requires s.QuadraticBezier? || s.CubicBezier?
    ensures var es := EmitSegment(s, t).entities;
      |es| == 1 && es[0].Spline? && es[0].knots == Knots
      && es[0].controlPoints[0] == Point3(t, s.start) && es[0].controlPoints[3] == Point3(t, s.end)
    ensures s.CubicBezier? ==> (EmitSegment(s, t).entities[0].controlPoints
      == [Point3(t, s.start), Point3(t, s.control1), Point3(t, s.control2), Point3(t, s.end)])
    ensures s.QuadraticBezier? ==> (EmitSegment(s, t).entities[0].controlPoints
      == [Point3(t, s.start), Point3(t, s.control), Point3(t, s.control), Point3(t, s.end)])
  {
  }

  /** The value at `u` of one coordinate of a quadratic Bezier curve. */
  function QuadraticAt(p0: real, p1: real, p2: real, u: real): real {
    (1.0 - u) * (1.0 - u) * p0 + 2.0 * (1.0 - u) * u * p1 + u * u * p2
  }

  /** The value at `u` of one coordinate of a cubic Bezier curve. */
  function CubicAt(p0: real, p1: real, p2: real, p3: real, u: real): real {
    (1.0 - u) * (1.0 - u) * (1.0 - u) * p0 + 3.0 * (1.0 - u) * (1.0 - u) * u * p1
      + 3.0 * (1.0 - u) * u * u * p2 + u * u * u * p3
  }

  /** Doubling the control point does not trace the quadratic curve: the
      midpoints agree only when the control point is itself the midpoint of
      the end points. */
  lemma DoubledControlMidpoint(p0: real, p1: real, p2: real)
    ensures CubicAt(p0, p1, p1, p2, 0.5) == QuadraticAt(p0, p1, p2, 0.5) <==> 2.0 * p1 == p0 + p2
  {
  }

  /** A point mapped through an affine transform. */
  function MapPoint(u: Transform, p: Point): (r: Point)
    ensures r.x == Point2(u, p)[0] && r.y == Point2(u, p)[1]
  {
    var q := Point2(u, p);
    Point(q[0], q[1])
  }

  /** A segment with every point mapped through `u`. */
  function MapSegment(u: Transform, s: Segment): (r: Segment)
    ensures Drawn(r) <==> Drawn(s)
  {
    match s
    case Line(a, b) => Line(MapPoint(u, a), MapPoint(u, b))
    case QuadraticBezier(a, c, b) => QuadraticBezier(MapPoint(u, a), MapPoint(u, c), MapPoint(u, b))
    case CubicBezier(a, c1, c2, b) => CubicBezier(MapPoint(u, a), MapPoint(u, c1), MapPoint(u, c2), MapPoint(u, b))
    case Arc(a, radius, rotation, largeArc, sweep, b) => Arc(MapPoint(u, a), radius, rotation, largeArc, sweep, MapPoint(u, b))
  }

  function MapSegments(u: Transform, segs: seq<Segment>): (r: seq<Segment>)
    ensures |r| == |segs| && forall i :: 0 <= i < |segs| ==> r[i] == MapSegment(u, segs[i])
  {
    seq(|segs|, i requires 0 <= i < |segs| => MapSegment(u, segs[i]))
  }

  /** Mapping a point through `Mult(t, u)` maps it through `u`, then `t`. */
  lemma Point2OfMult(t: Transform, u: Transform, p: Point)
    requires IsAffine(u)
    ensures Point2(Mult(t, u), p) == Point2(t, MapPoint(u, p))
  {
    MultAppliesRightFirst(t, u, [p.x, p.y]);
    var q := MultPoint(u, [p.x, p.y]);
    assert q == [MapPoint(u, p).x, MapPoint(u, p).y];
  }

  lemma Point3OfMult(t: Transform, u: Transform, p: Point)
    requires IsAffine(u)
    ensures Point3(Mult(t, u), p) == Point3(t, MapPoint(u, p))
  {
    MultAppliesRightFirst(t, u, [p.x, p.y, 0.0]);
    var q := MultPoint(u, [p.x, p.y, 0.0]);
    assert q == [MapPoint(u, p).x, MapPoint(u, p).y, 0.0];
  }

  /** Drawing a segment under `Mult(t, u)` draws the `u`-mapped segment
      under `t`: the outer transform of a nested element only sees the
      points the inner one produced. */
  lemma EmitSegmentUnderMult(s: Segment, t: Transform, u: Transform)
    requires IsAffine(u)
    ensures EmitSegment(s, Mult(t, u)).entities == EmitSegment(MapSegment(u, s), t).entities
  {
    match s
    case Line(a, b) =>
      Point2OfMult(t, u, a); Point2OfMult(t, u, b);
    case QuadraticBezier(a, c, b) =>
      Point3OfMult(t, u, a); Point3OfMult(t, u, c); Point3OfMult(t, u, b);
    case CubicBezier(a, c1, c2, b) =>
      Point3OfMult(t, u, a); Point3OfMult(t, u, c1); Point3OfMult(t, u, c2); Point3OfMult(t, u, b);
    case Arc(_, _, _, _, _, _) =>
  }

  lemma {:induction false} EmitPathUnderMult(segs: seq<Segment>, t: Transform, u: Transform)
    requires IsAffine(u)
    ensures EmitPath(segs, Mult(t, u)).entities == EmitPath(MapSegments(u, segs), t).entities
  {
    if |segs| > 0 {
      EmitSegmentUnderMult(segs[0], t, u);
      EmitPathUnderMult(segs[1..], t, u);
      assert MapSegments(u, segs)[1..] == MapSegments(u, segs[1..]);
    }
  }
}
