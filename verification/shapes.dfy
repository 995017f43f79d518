/** The shape normalisers of `src/svg_to_dxf.py`: every primitive shape
    becomes a path of absolute move, line and cubic commands, which is then
    drawn like any other path. */
module Shapes {
  import opened Wrappers
  import opened Strings
  import opened Paths

  /** Why a normalised shape aborts. The first two are Python `IndexError`s
      of the normaliser itself: a point token with no `,` has no second
      coordinate, and an empty edge-point list has no last element. The
      third comes later: the coordinate texts of a polygon or polyline are
      put into the path's `d` string unread, and `svg.path` raises when it
      parses a `d` string holding one that is not a number. */
  datatype ShapeError = MissingCoordinate | NoEdgePoints | BadCoordinate

  /** The two coordinate texts of a polygon or polyline point, as the
      normaliser passes them on without reading them. */
  datatype PointText = PointText(x: string, y: string)

  /** The control-point factor of the four-cubic circle approximation. */
  const Kappa: real := 0.55228

  /** One line command per point, in order. */
  function LineTos(ps: seq<Point>): (r: seq<Command>)
    ensures |r| == |ps| && DrawsOnly(r)
    ensures forall i :: 0 <= i < |ps| ==> r[i] == LineTo(ps[i])
  {
    seq(|ps|, i requires 0 <= i < |ps| => LineTo(ps[i]))
  }

  /** `_convert_line_to_path`: a move to the first end point and a line to
      the second. */
  function LineToPath(x1: real, y1: real, x2: real, y2: real): (r: seq<Command>)
    ensures Segments(r) == [Line(Point(x1, y1), Point(x2, y2))]
  {
    var r := [MoveTo(Point(x1, y1)), LineTo(Point(x2, y2))];
    assert r[1..] == [LineTo(Point(x2, y2))] && r[1..][1..] == [];
    assert Bridge(r[1..][1..], Point(x2, y2)) == [];
    assert Bridge(r[1..], Point(x1, y1)) == [Line(Point(x1, y1), Point(x2, y2))];
    assert Bridge(r, Point(0.0, 0.0)) == Bridge(r[1..], Point(x1, y1));
    r
  }

  /** Move to the LAST point, then a line to every point in order: the path
      ends where it began, with no close command needed. */
  function ClosedPath(ps: seq<Point>): (r: seq<Command>)
    requires |ps| > 0
    ensures |r| == |ps| + 1 && r[0] == MoveTo(ps[|ps| - 1]) && DrawsOnly(r[1..])
    ensures forall i :: 0 <= i < |ps| ==> r[i + 1] == LineTo(ps[i])
    ensures r[|r| - 1].to == r[0].to
  {
    [MoveTo(ps[|ps| - 1])] + LineTos(ps)
  }

  /** Move to the FIRST point, then a line to each later point: the path is
      left open at the last point. */
  function OpenPath(ps: seq<Point>): (r: seq<Command>)
    requires |ps| > 0
    ensures |r| == |ps| && r[0] == MoveTo(ps[0]) && DrawsOnly(r[1..])
    ensures forall i :: 1 <= i < |ps| ==> r[i] == LineTo(ps[i])
    ensures r[|r| - 1].to == ps[|ps| - 1]
  {
    [MoveTo(ps[0])] + LineTos(ps[1..])
  }

  /** `_convert_rect_to_path`: a missing `x` or `y` becomes 0 before the
      corners are asked for; the path closes through the corners, and a
      corner list without a last element raises. */
  function RectToPath(x: Option<real>, y: Option<real>, width: real, height: real,
                      edgePoints: (real, real, real, real) -> seq<Point>): (r: Result<seq<Command>, ShapeError>)
    ensures var edges := edgePoints(x.GetOr(0.0), y.GetOr(0.0), width, height);
      && (r.Success? <==> |edges| > 0)
      && (r.Success? ==> |r.value| == |edges| + 1 && r.value[0] == MoveTo(edges[|edges| - 1]))
      && (r.Success? ==> forall i :: 0 <= i < |edges| ==> r.value[i + 1] == LineTo(edges[i]))
  {
    var edges := edgePoints(x.GetOr(0.0), y.GetOr(0.0), width, height);
    if |edges| == 0 then Failure(NoEdgePoints) else Success(ClosedPath(edges))
  }

  /** One point token `p.split(",")`, read through `[0]` and `[1]`: the text
      before the first comma and the text between the first and second.
      `TokenPointRoundTrip` is its inverse. */
  function TokenPoint(token: string): (r: Result<PointText, ShapeError>)
    ensures r.Success? <==> ',' in token
    ensures r.Failure? ==> r.error == MissingCoordinate
  {
    var fields := Split(token, ',');
    if |fields| < 2 then Failure(MissingCoordinate)
    else Success(PointText(fields[0], fields[1]))
  }

  /** The point tokens in order; any token without a comma raises. */
  function TokenPoints(tokens: seq<string>): (r: Result<seq<PointText>, ShapeError>)
    ensures r.Success? <==> AllHaveComma(tokens)
    ensures r.Failure? ==> r.error == MissingCoordinate
    ensures r.Success? ==> |r.value| == |tokens|
    ensures r.Success? ==> forall i :: 0 <= i < |tokens| ==> TokenPoint(tokens[i]) == Success(r.value[i])
  {
    if |tokens| == 0 then Success([])
    else match TokenPoint(tokens[0])
      case Failure(e) => Failure(e)
      case Success(p) =>
        match TokenPoints(tokens[1..])
        case Failure(e) => Failure(e)
        case Success(ps) =>
          assert forall i :: 1 <= i < |tokens| ==> tokens[i] == tokens[1..][i - 1];
          Success([p] + ps)
  }

  /** Every token has a comma. */
  predicate AllHaveComma(tokens: seq<string>) {
    forall i :: 0 <= i < |tokens| ==> ',' in tokens[i]
  }

  /** `[p.split(",") for p in points.split(" ")]`: tokens are separated by
      single spaces, so there is always at least one. */
  function PointList(points: string): (r: Result<seq<PointText>, ShapeError>)
    ensures r.Success? <==> AllHaveComma(Split(points, ' '))
    ensures r.Failure? ==> r.error == MissingCoordinate
    ensures r.Success? ==> |r.value| == |Split(points, ' ')| > 0
  {
    var tokens := Split(points, ' ');
    TokenPoints(tokens)
  }

  /** Both coordinate texts read as numbers. */
  predicate Readable(p: PointText, number: string -> Option<real>) {
    number(p.x).Some? && number(p.y).Some?
  }

  predicate AllReadable(ps: seq<PointText>, number: string -> Option<real>) {
    forall i :: 0 <= i < |ps| ==> Readable(ps[i], number)
  }

  /** What `svg.path` reads back from the coordinate texts: every point, or
      an error as soon as one text is not a number. */
  function ReadPoints(ps: seq<PointText>, number: string -> Option<real>): (r: Result<seq<Point>, ShapeError>)
    ensures r.Success? <==> AllReadable(ps, number)
    ensures r.Failure? ==> r.error == BadCoordinate
    ensures r.Success? ==> |r.value| == |ps|
    ensures r.Success? ==> forall i :: 0 <= i < |ps| ==> r.value[i] == Point(number(ps[i].x).value, number(ps[i].y).value)
  {
    if |ps| == 0 then Success([])
    else if !Readable(ps[0], number) then Failure(BadCoordinate)
    else match ReadPoints(ps[1..], number)
      case Failure(e) => Failure(e)
      case Success(rest) =>
        assert forall i :: 1 <= i < |ps| ==> ps[i] == ps[1..][i - 1];
        Success([Point(number(ps[0].x).value, number(ps[0].y).value)] + rest)
  }

  /** The points of a `points` attribute: a token without a comma raises in
      the normaliser, before any coordinate is read; after that, a
      coordinate text that is not a number makes the built path unparsable. */
  function Coordinates(points: string, number: string -> Option<real>): (r: Result<seq<Point>, ShapeError>)
    ensures r == Failure(MissingCoordinate) <==> !AllHaveComma(Split(points, ' '))
    ensures r.Success? <==> AllHaveComma(Split(points, ' ')) && AllReadable(PointList(points).value, number)
    ensures r.Success? ==> |r.value| == |Split(points, ' ')| > 0
  {
    match PointList(points)
    case Failure(e) => Failure(e)
    case Success(texts) => ReadPoints(texts, number)
  }

  /** `_convert_polygon_to_path`: closed through every point. */
  function PolygonToPath(points: string, number: string -> Option<real>): (r: Result<seq<Command>, ShapeError>)
    ensures r.Success? <==> Coordinates(points, number).Success?
    ensures r.Failure? ==> r.error == Coordinates(points, number).error
    ensures r.Success? ==> var ps := Coordinates(points, number).value;
      && |r.value| == |ps| + 1 && r.value[0] == MoveTo(ps[|ps| - 1]) && r.value[|ps|].to == ps[|ps| - 1]
      && forall i :: 0 <= i < |ps| ==> r.value[i + 1] == LineTo(ps[i])
  {
    match Coordinates(points, number)
    case Failure(e) => Failure(e)
    case Success(ps) => Success(ClosedPath(ps))
  }

  /** `_convert_polyline_to_path`: open from the first point to the last. */
  function PolylineToPath(points: string, number: string -> Option<real>): (r: Result<seq<Command>, ShapeError>)
    ensures r.Success? <==> Coordinates(points, number).Success?
    ensures r.Failure? ==> r.error == Coordinates(points, number).error
    ensures r.Success? ==> var ps := Coordinates(points, number).value;
      && |r.value| == |ps| && r.value[0] == MoveTo(ps[0]) && r.value[|ps| - 1].to == ps[|ps| - 1]
      && forall i :: 1 <= i < |ps| ==> r.value[i] == LineTo(ps[i])
  {
    match Coordinates(points, number)
    case Failure(e) => Failure(e)
    case Success(ps) => Success(OpenPath(ps))
  }

  /** `_cubic_approx_ellipse`: start at the leftmost point and go round
      through the top, right and bottom points with four cubics whose
      control points sit `Kappa` times the radius from their end points. */
  function CubicApproxEllipse(cx: real, cy: real, rx: real, ry: real): (r: seq<Command>)
    ensures |r| == 5 && r[0] == MoveTo(Point(cx - rx, cy)) && DrawsOnly(r[1..])
    ensures forall i :: 1 <= i < 5 ==> r[i].CubicTo?
    ensures r[1].to == Point(cx, cy - ry) && r[2].to == Point(cx + rx, cy) && r[3].to == Point(cx, cy + ry)
    ensures r[4].to == r[0].to
  {
    var ox, oy := rx * Kappa, ry * Kappa;
    [ MoveTo(Point(cx - rx, cy)),
      CubicTo(Point(cx - rx, cy - oy), Point(cx - ox, cy - ry), Point(cx, cy - ry)),
      CubicTo(Point(cx + ox, cy - ry), Point(cx + rx, cy - oy), Point(cx + rx, cy)),
      CubicTo(Point(cx + rx, cy + oy), Point(cx + ox, cy + ry), Point(cx, cy + ry)),
      CubicTo(Point(cx - ox, cy + ry), Point(cx - rx, cy + oy), Point(cx - rx, cy)) ]
  }

  /** `_convert_ellipse_to_path`: a missing centre coordinate becomes 0, and
      the path runs through the four ends of the axes about that centre. */
  function EllipseToPath(cx: Option<real>, cy: Option<real>, rx: real, ry: real): (path: seq<Command>)
    ensures var x, y := cx.GetOr(0.0), cy.GetOr(0.0);
      && |path| == 5 && path[0] == MoveTo(Point(x - rx, y)) && DrawsOnly(path[1..])
      && path[1].to == Point(x, y - ry) && path[2].to == Point(x + rx, y)
      && path[3].to == Point(x, y + ry) && path[4].to == path[0].to
  {
    CubicApproxEllipse(cx.GetOr(0.0), cy.GetOr(0.0), rx, ry)
  }

  /** `_convert_circle_to_path`: a missing centre coordinate becomes 0, and
      every end point of the path lies on the circle. */
  function CircleToPath(cx: Option<real>, cy: Option<real>, r: real): (path: seq<Command>)
    ensures |path| == 5 && path[0] == MoveTo(Point(cx.GetOr(0.0) - r, cy.GetOr(0.0))) && DrawsOnly(path[1..])
    ensures var c := Point(cx.GetOr(0.0), cy.GetOr(0.0));
      OnCircle(c, path[0].to, r) && OnCircle(c, path[1].to, r) && OnCircle(c, path[2].to, r)
      && OnCircle(c, path[3].to, r) && OnCircle(c, path[4].to, r)
  {
    CubicApproxEllipse(cx.GetOr(0.0), cy.GetOr(0.0), r, r)
  }

  // ---------------------------------------------------------------------
  // Properties of the normalisers

  /** The closed path draws one line per point, the first from the last
      point: a loop that returns to where it started. */
  lemma ClosedPathLoop(ps: seq<Point>)
    requires |ps| > 0
    ensures var segs := Segments(ClosedPath(ps));
      && |segs| == |ps| && Chained(segs)
      && (forall i :: 0 <= i < |ps| ==> segs[i] == Line(if i == 0 then ps[|ps| - 1] else ps[i - 1], ps[i]))
      && segs[|segs| - 1].end == segs[0].start
  {
    var cmds := ClosedPath(ps);
    MoveThenDraws(ps[|ps| - 1], cmds[1..]);
    assert cmds == [MoveTo(ps[|ps| - 1])] + cmds[1..];
    assert Segments(cmds) == Bridge(cmds[1..], ps[|ps| - 1]);
    BridgeDraws(cmds[1..], ps[|ps| - 1]);
  }

  /** The open path draws `n - 1` lines from each point to the next and no
      closing line. */
  lemma OpenPathChain(ps: seq<Point>)
    requires |ps| > 0
    ensures var segs := Segments(OpenPath(ps));
      && |segs| == |ps| - 1
      && forall i :: 0 <= i < |ps| - 1 ==> segs[i] == Line(ps[i], ps[i + 1])
  {
    var cmds := OpenPath(ps);
    assert cmds == [MoveTo(ps[0])] + cmds[1..];
    assert Segments(cmds) == Bridge(cmds[1..], ps[0]);
    BridgeDraws(cmds[1..], ps[0]);
  }

  /** A polygon is the polyline through the same points with the closing
      edge from the last point to the first put in front. */
  lemma ClosedIsOpenWithClosingEdge(ps: seq<Point>)
    requires |ps| > 0
    ensures ClosedPath(ps) == [MoveTo(ps[|ps| - 1]), LineTo(ps[0])] + OpenPath(ps)[1..]
  {
    var lhs, rhs := ClosedPath(ps), [MoveTo(ps[|ps| - 1]), LineTo(ps[0])] + OpenPath(ps)[1..];
    assert |lhs| == |rhs|;
    forall i | 0 <= i < |lhs| ensures lhs[i] == rhs[i] {
      if i >= 2 { assert rhs[i] == OpenPath(ps)[i - 1] == LineTo(ps[1..][i - 2]); }
    }
  }

  /** The closed path's segments are lines, each ending at its point. */
  lemma ClosedLoopEnds(ps: seq<Point>)
    requires |ps| > 0
    ensures var segs := Segments(ClosedPath(ps));
      |segs| == |ps| && forall i :: 0 <= i < |ps| ==> segs[i].Line? && segs[i].end == ps[i]
  {
    ClosedPathLoop(ps);
    var segs := Segments(ClosedPath(ps));
    forall i | 0 <= i < |ps| ensures segs[i].Line? && segs[i].end == ps[i] {
      var from := if i == 0 then ps[|ps| - 1] else ps[i - 1];
      assert segs[i] == Line(from, ps[i]);
    }
  }

  /** A rectangle's path is a closed loop of lines through its corners. */
  lemma RectIsClosedLoop(x: Option<real>, y: Option<real>, width: real, height: real,
                         edgePoints: (real, real, real, real) -> seq<Point>)
    requires RectToPath(x, y, width, height, edgePoints).Success?
    ensures var edges := edgePoints(x.GetOr(0.0), y.GetOr(0.0), width, height);
      var segs := Segments(RectToPath(x, y, width, height, edgePoints).value);
      && |segs| == |edges| && Chained(segs) && segs[|segs| - 1].end == segs[0].start
      && forall i :: 0 <= i < |edges| ==> segs[i].Line? && segs[i].end == edges[i]
  {
    var edges := edgePoints(x.GetOr(0.0), y.GetOr(0.0), width, height);
    assert RectToPath(x, y, width, height, edgePoints).value == ClosedPath(edges);
    ClosedPathLoop(edges);
    ClosedLoopEnds(edges);
  }

  /** Writing a point as `x,y` (optionally followed by more fields) and
      reading it back gives its two coordinate texts. */
  lemma TokenPointRoundTrip(token: string, xs: string, ys: string, rest: seq<string>)
    requires ',' !in xs && ',' !in ys
    requires forall i :: 0 <= i < |rest| ==> ',' !in rest[i]
    requires token == Join([xs, ys] + rest, ',')
    ensures TokenPoint(token) == Success(PointText(xs, ys))
  {
    var pieces := [xs, ys] + rest;
    forall i | 0 <= i < |pieces| ensures ',' !in pieces[i] {
      if i >= 2 { assert pieces[i] == rest[i - 2]; }
    }
    SplitJoin(pieces, ',');
    assert Split(token, ',') == pieces;
  }

  /** Two spaces in a row leave an empty token, which has no comma: the
      polygon and the polyline both raise. */
  lemma DoubledSpaceFails(a: string, b: string, number: string -> Option<real>)
    ensures PolygonToPath(a + "  " + b, number) == Failure(MissingCoordinate)
    ensures PolylineToPath(a + "  " + b, number) == Failure(MissingCoordinate)
  {
    var points := a + "  " + b;
    DoubledSpaceToken(a, b);
    assert Coordinates(points, number) == Failure(MissingCoordinate);
  }

  /** The token between two spaces in a row is empty. */
  lemma DoubledSpaceToken(a: string, b: string)
    ensures !AllHaveComma(Split(a + "  " + b, ' '))
  {
    var c := [' '] + b;
    assert a + "  " + b == a + [' '] + c;
    SplitAround(a, c, ' ');
    assert c == [] + [' '] + b;
    SplitAround([], b, ' ');
    assert Split([], ' ') == [""];
    var tail := Split(c, ' ');
    assert tail == [""] + Split(b, ' ');
    var tokens := Split(a, ' ') + tail;
    assert Split(a + "  " + b, ' ') == tokens;
    assert tokens[|Split(a, ' ')|] == tail[0] == "";
  }

  /** A trailing comma leaves an empty coordinate text. The normaliser
      passes it on, and the shape aborts only when the path is read back:
      `"0,0 1,"` fails as soon as the empty text is not a number. */
  lemma EmptyCoordinateFails(points: string, number: string -> Option<real>)
    requires points == "0,0 1,"
    requires number("") == None
    ensures PolygonToPath(points, number) == Failure(BadCoordinate)
    ensures PolylineToPath(points, number) == Failure(BadCoordinate)
  {
    var tokens := ["0,0", "1,"];
    assert Join(tokens[1..], ' ') == "1,";
    assert Join(tokens, ' ') == points;
    SplitJoin(tokens, ' ');
    assert Join(["1", ""][1..], ',') == "";
    assert Join(["1", ""] + [], ',') == "1,";
    TokenPointRoundTrip("1,", "1", "", []);
    assert ',' in tokens[0];
    assert AllHaveComma(tokens);
    var texts := PointList(points).value;
    assert texts[1] == PointText("1", "");
    assert !AllReadable(texts, number);
  }

  /** Mirror images about `centre`. */
  predicate Mirrored(a: Point, centre: Point, b: Point) {
    a.x + b.x == 2.0 * centre.x && a.y + b.y == 2.0 * centre.y
  }

  /** The ellipse path is a closed chain of four cubics, and at every join
      (the start included) the control points on either side are mirror
      images about the join, so the outline has no corner there. */
  lemma EllipseSmoothClosed(cx: real, cy: real, rx: real, ry: real)
    ensures var r := CubicApproxEllipse(cx, cy, rx, ry);
      && Mirrored(r[1].c2, r[1].to, r[2].c1)
      && Mirrored(r[2].c2, r[2].to, r[3].c1)
      && Mirrored(r[3].c2, r[3].to, r[4].c1)
      && Mirrored(r[4].c2, r[4].to, r[1].c1)
    ensures var segs := Segments(CubicApproxEllipse(cx, cy, rx, ry));
      && |segs| == 4 && Chained(segs) && segs[3].end == segs[0].start
      && forall i :: 0 <= i < 4 ==> segs[i].CubicBezier?
  {
    var r := CubicApproxEllipse(cx, cy, rx, ry);
    MoveThenDraws(Point(cx - rx, cy), r[1..]);
    assert r == [MoveTo(Point(cx - rx, cy))] + r[1..];
    BridgeDraws(r[1..], Point(cx - rx, cy));
  }

  /** `control` sits `ox` from `anchor` along the x axis or `oy` along the
      y axis. */
  predicate AxisOffset(anchor: Point, control: Point, ox: real, oy: real) {
    || (control.x == anchor.x && (control.y == anchor.y + oy || control.y == anchor.y - oy))
    || (control.y == anchor.y && (control.x == anchor.x + ox || control.x == anchor.x - ox))
  }

  /** Every control point of the ellipse path sits `Kappa` times the radius
      of its axis from the end point it belongs to. */
  lemma EllipseHandles(cx: real, cy: real, rx: real, ry: real)
    ensures var r, ox, oy := CubicApproxEllipse(cx, cy, rx, ry), rx * Kappa, ry * Kappa;
      forall i :: 1 <= i < 5 ==> AxisOffset(r[i - 1].to, r[i].c1, ox, oy) && AxisOffset(r[i].to, r[i].c2, ox, oy)
  {
  }

  /** The handle from `anchor` to `control` is tangent to the circle about
      `centre` and `len` long. */
  predicate TangentHandle(centre: Point, anchor: Point, control: Point, len: real) {
    var hx, hy := control.x - anchor.x, control.y - anchor.y;
    && hx * (anchor.x - centre.x) + hy * (anchor.y - centre.y) == 0.0
    && hx * hx + hy * hy == len * len
  }

  /** `p` lies on the circle of radius `r` about `centre`. */
  predicate OnCircle(centre: Point, p: Point, r: real) {
    (p.x - centre.x) * (p.x - centre.x) + (p.y - centre.y) * (p.y - centre.y) == r * r
  }

  /** A handle along one axis from an anchor on the other axis. */
  lemma AxisHandle(centre: Point, anchor: Point, control: Point, len: real)
    requires (anchor.y == centre.y && control.x == anchor.x && (control.y == anchor.y + len || control.y == anchor.y - len))
          || (anchor.x == centre.x && control.y == anchor.y && (control.x == anchor.x + len || control.x == anchor.x - len))
    ensures TangentHandle(centre, anchor, control, len)
  {
  }

  /** The end points of a circle's path lie on the circle, and every control
      point is `r * Kappa` from its end point along the tangent there. */
  lemma CircleGeometry(cx: Option<real>, cy: Option<real>, r: real)
    ensures var p, c := CircleToPath(cx, cy, r), Point(cx.GetOr(0.0), cy.GetOr(0.0));
      && (forall i :: 0 <= i < 5 ==> OnCircle(c, p[i].to, r))
      && (forall i :: 1 <= i < 5 ==> TangentHandle(c, p[i - 1].to, p[i].c1, r * Kappa) && TangentHandle(c, p[i].to, p[i].c2, r * Kappa))
  {
    var p, c := CircleToPath(cx, cy, r), Point(cx.GetOr(0.0), cy.GetOr(0.0));
    var k := r * Kappa;
    assert OnCircle(c, p[0].to, r) && OnCircle(c, p[1].to, r) && OnCircle(c, p[2].to, r) && OnCircle(c, p[3].to, r);
    AxisHandle(c, p[0].to, p[1].c1, k); AxisHandle(c, p[1].to, p[1].c2, k);
    AxisHandle(c, p[1].to, p[2].c1, k); AxisHandle(c, p[2].to, p[2].c2, k);
    AxisHandle(c, p[2].to, p[3].c1, k); AxisHandle(c, p[3].to, p[3].c2, k);
    AxisHandle(c, p[3].to, p[4].c1, k); AxisHandle(c, p[4].to, p[4].c2, k);
  }

  /** A circle is the ellipse with both radii equal, and an absent centre is
      the origin. */
  lemma CircleIsEllipse(cx: Option<real>, cy: Option<real>, r: real)
    ensures CircleToPath(cx, cy, r) == EllipseToPath(cx, cy, r, r)
    ensures CircleToPath(None, None, r)[0] == MoveTo(Point(-r, 0.0))
  {
  }
}
