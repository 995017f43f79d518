/** `_convert_element`, `_append_subelements` and `convert` of
    `src/svg_to_dxf.py`: the parsed SVG tree is walked depth first, every
    element's own `transform` is composed onto the one it inherits, shapes
    are normalised to paths and drawn by the emitter, and the document root
    starts the walk with a flip of the y axis.

    The libraries the converter calls are parameters (`Env`): `eval`, the
    trigonometric functions, `svg.path`'s parser of `d` strings, pysvg's
    rectangle corners and `svg.path`'s reading of one coordinate text. A
    Python exception aborts the whole conversion; it is a `Failure` here. */
module Conversion {
  import opened Wrappers
  import opened Strings
  import opened Transforms
  import opened TransformParse
  import opened Paths
  import opened Shapes
  import opened Emitter

  /** An element of the parsed SVG tree: its `transform` attribute, the
      empty string when it has none, and what kind of element it is. */
  datatype Element = Element(transform: string, kind: Kind)

  /** The element classes `_convert_element` tells apart, with the
      attributes it reads. A missing rectangle origin or circle/ellipse
      centre is `None`. */
  datatype Kind =
    | Group(children: seq<Element>)
    | PathElement(d: string)
    | LineElement(x1: real, y1: real, x2: real, y2: real)
    | RectElement(x: Option<real>, y: Option<real>, width: real, height: real)
    | PolygonElement(points: string)
    | PolylineElement(points: string)
    | CircleElement(cx: Option<real>, cy: Option<real>, r: real)
    | EllipseElement(cx: Option<real>, cy: Option<real>, rx: real, ry: real)
    | TextContent
    | Unsupported(tag: string)

  /** The collaborators outside the model. `parsePath` is `None` for a `d`
      string `svg.path` rejects, and `number` is `None` for a coordinate
      text it cannot read as a number. */
  datatype Env = Env(
    trig: Trig,
    evalCall: string -> Option<Call>,
    parsePath: string -> Option<seq<Segment>>,
    edgePoints: (real, real, real, real) -> seq<Point>,
    number: string -> Option<real>)

  /** Why a conversion aborts. */
  datatype ConvertError =
    | BadTransform(cause: TransformError)
    | BadPathData(d: string)
    | BadShape(shape: ShapeError)

  /** `matrix(1, 0, 0, -1, 0, 0)`: SVG's y axis points down, DXF's up. */
  const RootTransform: Transform := Matrix(1.0, 0.0, 0.0, -1.0, 0.0, 0.0)

  /** The element has a non-empty `transform`. Text content has no
      `get_transform` at all. */
  predicate HasTransform(e: Element) {
    e.transform != [] && !e.kind.TextContent?
  }

  /** The transform the element and its children are drawn with: the
      inherited one, multiplied by the parsed local one when there is one.
      A transform attribute `parse` rejects aborts the conversion. */
  function LocalTransform(env: Env, e: Element, t: Transform): (r: Result<Transform, ConvertError>)
    ensures r.Failure? <==> HasTransform(e) && Parse(e.transform, env.evalCall, env.trig).Failure?
    ensures IsAffine(t) && r.Success? ==> IsAffine(r.value)
  {
    if !HasTransform(e) then Success(t)
    else match Parse(e.transform, env.evalCall, env.trig)
      case Failure(err) => Failure(BadTransform(err))
      case Success(local) => Success(Mult(t, local))
  }

  /** The element kinds that are drawn as a path. */
  predicate IsShape(k: Kind) {
    !k.Group? && !k.TextContent? && !k.Unsupported?
  }

  /** The segments a drawn element contributes: a `path` is parsed by
      `svg.path`, every other shape is first normalised to a path. Only a
      bad `d` string, an empty corner list, a point token without a comma
      and a coordinate text that is not a number abort. */
  function ShapeSegments(env: Env, k: Kind): (r: Result<seq<Segment>, ConvertError>)
    requires IsShape(k)
    ensures r.Failure? <==>
      || (k.PathElement? && env.parsePath(k.d).None?)
      || (k.RectElement? && |env.edgePoints(k.x.GetOr(0.0), k.y.GetOr(0.0), k.width, k.height)| == 0)
      || ((k.PolygonElement? || k.PolylineElement?)
          && (!AllHaveComma(Split(k.points, ' ')) || !AllReadable(PointList(k.points).value, env.number)))
    ensures k.LineElement? ==> r == Success([Line(Point(k.x1, k.y1), Point(k.x2, k.y2))])
  {
    match k
    case PathElement(d) =>
      (match env.parsePath(d)
       case None => Failure(BadPathData(d))
       case Some(segs) => Success(segs))
    case LineElement(x1, y1, x2, y2) => Success(Segments(LineToPath(x1, y1, x2, y2)))
    case RectElement(x, y, width, height) => Drawing(RectToPath(x, y, width, height, env.edgePoints))
    case PolygonElement(points) => Drawing(PolygonToPath(points, env.number))
    case PolylineElement(points) => Drawing(PolylineToPath(points, env.number))
    case CircleElement(cx, cy, radius) => Success(Segments(CircleToPath(cx, cy, radius)))
    case EllipseElement(cx, cy, rx, ry) => Success(Segments(EllipseToPath(cx, cy, rx, ry)))
  }

  /** The segments of a normalised path, or the normaliser's error. */
  function Drawing(path: Result<seq<Command>, ShapeError>): (r: Result<seq<Segment>, ConvertError>)
    ensures r.Success? <==> path.Success?
  {
    match path
    case Failure(err) => Failure(BadShape(err))
    case Success(cmds) => Success(Segments(cmds))
  }

  /** Both conversions in order; the first failure aborts. */
  function Sequence(first: Result<Output, ConvertError>, rest: Result<Output, ConvertError>): (r: Result<Output, ConvertError>)
    ensures r.Success? <==> first.Success? && rest.Success?
    ensures first.Failure? ==> r == first
    ensures first.Success? && rest.Failure? ==> r == rest
  {
    match first
    case Failure(err) => Failure(err)
    case Success(a) =>
      match rest
      case Failure(err) => Failure(err)
      case Success(b) => Success(Then(a, b))
  }

  /** `_convert_element`: compose the local transform, then draw the
      element by kind. */
  function ConvertElement(env: Env, e: Element, t: Transform): (r: Result<Output, ConvertError>)
    ensures r.Success? ==> WellFormed(r.value.entities)
    decreases e
  {
    match LocalTransform(env, e, t)
    case Failure(err) => Failure(err)
    case Success(u) => ConvertKind(env, e.kind, u)
  }

  /** The dispatch on the element class under the composed transform
      `u`: groups recurse, text is skipped, shapes are drawn, and an
      element of any other class is written to the debug stream. */
  function ConvertKind(env: Env, k: Kind, u: Transform): (r: Result<Output, ConvertError>)
    ensures r.Success? ==> WellFormed(r.value.entities)
    ensures k.TextContent? ==> r == Success(NoOutput)
    ensures k.Unsupported? ==> r == Success(Output([], [ElementRecord(k.tag)]))
    decreases k
  {
    match k
    case Group(children) => ConvertChildren(env, children, u)
    case TextContent => Success(NoOutput)
    case Unsupported(tag) => Success(Output([], [ElementRecord(tag)]))
    case _ =>
      match ShapeSegments(env, k)
      case Failure(err) => Failure(err)
      case Success(segs) => Success(EmitPath(segs, u))
  }

  /** `_append_subelements`: every child in document order, under the same
      transform. */
  function ConvertChildren(env: Env, cs: seq<Element>, t: Transform): (r: Result<Output, ConvertError>)
    ensures r.Success? ==> WellFormed(r.value.entities)
    ensures r.Success? <==> forall i :: 0 <= i < |cs| ==> ConvertElement(env, cs[i], t).Success?
    decreases cs
  {
    if |cs| == 0 then Success(NoOutput)
    else
      var first, rest := ConvertElement(env, cs[0], t), ConvertChildren(env, cs[1..], t);
      var r := Sequence(first, rest);
      assert r.Success? ==> WellFormed(r.value.entities) by {
        if r.Success? {
          WellFormedAppend(first.value.entities, rest.value.entities);
        }
      }
      assert forall i :: 1 <= i < |cs| ==> cs[i] == cs[1..][i - 1];
      r
  }

  /** `convert`: the root's children under the y flip. The DXF document is
      written only when the whole walk succeeds. */
  function Convert(env: Env, root: seq<Element>): (r: Result<Output, ConvertError>)
    ensures r.Success? ==> WellFormed(r.value.entities)
    ensures r.Success? <==> forall i :: 0 <= i < |root| ==> ConvertElement(env, root[i], RootTransform).Success?
  {
    ConvertChildren(env, root, RootTransform)
  }

  // ---------------------------------------------------------------------
  // Properties of the walk

  /** Running three conversions in order does not depend on grouping. */
  lemma SequenceAssoc(x: Result<Output, ConvertError>, y: Result<Output, ConvertError>, z: Result<Output, ConvertError>)
    ensures Sequence(x, Sequence(y, z)) == Sequence(Sequence(x, y), z)
  {
    if x.Success? && y.Success? && z.Success? {
      assert x.value.entities + (y.value.entities + z.value.entities) == (x.value.entities + y.value.entities) + z.value.entities;
      assert x.value.log + (y.value.log + z.value.log) == (x.value.log + y.value.log) + z.value.log;
    }
  }

  /** Converting nothing is the unit of `Sequence`. */
  lemma SequenceUnit(x: Result<Output, ConvertError>)
    ensures Sequence(x, Success(NoOutput)) == x && Sequence(Success(NoOutput), x) == x
  {
    if x.Success? {
      assert Then(x.value, NoOutput) == x.value && Then(NoOutput, x.value) == x.value;
    }
  }

  /** A single child converts as itself. */
  lemma SingleChild(env: Env, e: Element, t: Transform)
    ensures ConvertChildren(env, [e], t) == ConvertElement(env, e, t)
  {
    assert [e][1..] == [];
    SequenceUnit(ConvertElement(env, e, t));
  }

  /** Converting two runs of siblings converts one after the other. */
  lemma {:induction false} ConvertChildrenAppend(env: Env, a: seq<Element>, b: seq<Element>, t: Transform)
    ensures ConvertChildren(env, a + b, t) == Sequence(ConvertChildren(env, a, t), ConvertChildren(env, b, t))
  {
    if |a| == 0 {
      assert a + b == b;
      SequenceUnit(ConvertChildren(env, b, t));
    } else {
      assert (a + b)[0] == a[0] && (a + b)[1..] == a[1..] + b;
      ConvertChildrenAppend(env, a[1..], b, t);
      var x, y, z := ConvertElement(env, a[0], t), ConvertChildren(env, a[1..], t), ConvertChildren(env, b, t);
      assert ConvertChildren(env, a + b, t) == Sequence(x, ConvertChildren(env, a[1..] + b, t));
      SequenceAssoc(x, y, z);
    }
  }

  /** The first child that fails decides the error. */
  lemma {:induction false} FirstFailureWins(env: Env, cs: seq<Element>, t: Transform, k: nat)
    requires k < |cs| && ConvertElement(env, cs[k], t).Failure?
    requires forall i :: 0 <= i < k ==> ConvertElement(env, cs[i], t).Success?
    ensures ConvertChildren(env, cs, t) == ConvertElement(env, cs[k], t)
  {
    var x, rest := ConvertElement(env, cs[0], t), ConvertChildren(env, cs[1..], t);
    assert ConvertChildren(env, cs, t) == Sequence(x, rest);
    if k == 0 {
      assert x.Failure?;
    } else {
      forall i | 0 <= i < k - 1 ensures ConvertElement(env, cs[1..][i], t).Success? {
        assert cs[1..][i] == cs[i + 1];
      }
      assert cs[1..][k - 1] == cs[k];
      FirstFailureWins(env, cs[1..], t, k - 1);
      assert rest == ConvertElement(env, cs[k], t);
      assert x.Success? && rest.Failure?;
    }
  }

  /** Without a transform attribute the element is drawn under the
      inherited transform. */
  lemma NoTransformInherits(env: Env, k: Kind, t: Transform)
    ensures ConvertElement(env, Element([], k), t) == ConvertKind(env, k, t)
  {
  }

  /** With one, the element and everything below it are drawn under the
      inherited transform times the parsed local one, so the local one is
      applied first. */
  lemma TransformComposes(env: Env, s: string, k: Kind, t: Transform)
    requires |s| > 0 && !k.TextContent? && Parse(s, env.evalCall, env.trig).Success?
    ensures ConvertElement(env, Element(s, k), t) == ConvertKind(env, k, Mult(t, Parse(s, env.evalCall, env.trig).value))
  {
  }

  /** Text content draws and logs nothing, whatever its attributes. */
  lemma TextIsSkipped(env: Env, s: string, t: Transform)
    ensures ConvertElement(env, Element(s, TextContent), t) == Success(NoOutput)
  {
  }

  /** An element of a class the converter does not know draws nothing and
      is written to the debug stream once, once its transform parses. */
  lemma UnsupportedIsLogged(env: Env, s: string, tag: string, t: Transform)
    ensures var r := ConvertElement(env, Element(s, Unsupported(tag)), t);
      && (r.Failure? <==> s != [] && Parse(s, env.evalCall, env.trig).Failure?)
      && (r.Success? ==> r.value == Output([], [ElementRecord(tag)]))
  {
  }

  /** A transform attribute of blanks only is not absent: `parse` finds no
      call and the conversion aborts. */
  lemma BlankTransformAborts(env: Env, s: string, k: Kind, t: Transform)
    requires |s| > 0 && IsBlank(s) && !k.TextContent?
    ensures ConvertElement(env, Element(s, k), t) == Failure(BadTransform(NoTransforms))
  {
    forall i | 0 <= i < |s| ensures s[i] != ')' {
      assert IsSpace(s[i]);
    }
    SplitWithoutSeparator(s, ')');
    assert AllBlank(Split(s, ')'));
  }

  /** A group without a transform is transparent: its children convert as
      if they were its siblings. */
  lemma PlainGroupIsTransparent(env: Env, cs: seq<Element>, rest: seq<Element>, t: Transform)
    ensures ConvertChildren(env, [Element([], Group(cs))] + rest, t) == ConvertChildren(env, cs + rest, t)
  {
    var group := Element([], Group(cs));
    ConvertChildrenAppend(env, [group], rest, t);
    SingleChild(env, group, t);
    ConvertChildrenAppend(env, cs, rest, t);
  }

  /** Nested transforms compose: an element inside a group with transform
      `s1` is drawn exactly as if its own transform were `s1` followed by
      its own `s2`. */
  lemma NestedTransformsCompose(env: Env, s1: string, s2: string, k: Kind, t: Transform)
    requires |s1| > 0 && s1[|s1| - 1] == ')' && |s2| > 0 && !k.TextContent?
    requires Parse(s1, env.evalCall, env.trig).Success? && Parse(s2, env.evalCall, env.trig).Success?
    ensures ConvertElement(env, Element(s1, Group([Element(s2, k)])), t) == ConvertElement(env, Element(s1 + s2, k), t)
  {
    var p1, p2 := Parse(s1, env.evalCall, env.trig).value, Parse(s2, env.evalCall, env.trig).value;
    ParseConcat(s1, s2, env.evalCall, env.trig);
    MultAssoc(t, p1, p2);
    var inner := Element(s2, k);
    SingleChild(env, inner, Mult(t, p1));
    assert ConvertElement(env, Element(s1, Group([inner])), t) == ConvertChildren(env, [inner], Mult(t, p1));
    assert ConvertElement(env, inner, Mult(t, p1)) == ConvertKind(env, k, Mult(Mult(t, p1), p2));
    assert ConvertElement(env, Element(s1 + s2, k), t) == ConvertKind(env, k, Mult(t, Mult(p1, p2)));
  }

  /** A shape with a local transform draws the locally mapped segments
      under the inherited transform. */
  lemma LocalTransformMapsShape(env: Env, s: string, k: Kind, t: Transform)
    requires IsShape(k) && |s| > 0
    requires Parse(s, env.evalCall, env.trig).Success? && ShapeSegments(env, k).Success?
    ensures var local, segs := Parse(s, env.evalCall, env.trig).value, ShapeSegments(env, k).value;
      && ConvertElement(env, Element(s, k), t).Success?
      && ConvertElement(env, Element(s, k), t).value.entities == EmitPath(MapSegments(local, segs), t).entities
  {
    var local, segs := Parse(s, env.evalCall, env.trig).value, ShapeSegments(env, k).value;
    assert LocalTransform(env, Element(s, k), t) == Success(Mult(t, local));
    assert ConvertKind(env, k, Mult(t, local)) == Success(EmitPath(segs, Mult(t, local)));
    assert ConvertElement(env, Element(s, k), t) == Success(EmitPath(segs, Mult(t, local)));
    EmitPathUnderMult(segs, t, local);
  }

  /** At the root, a line element is drawn with its y coordinates negated. */
  lemma RootFlipsY(env: Env, x1: real, y1: real, x2: real, y2: real)
    ensures Convert(env, [Element([], LineElement(x1, y1, x2, y2))])
         == Success(Output([DxfLine([x1, -y1], [x2, -y2])], [SegmentRecord(Line(Point(x1, y1), Point(x2, y2)))]))
  {
    var line := Element([], LineElement(x1, y1, x2, y2));
    var seg := Line(Point(x1, y1), Point(x2, y2));
    var a, b := Point2(RootTransform, Point(x1, y1)), Point2(RootTransform, Point(x2, y2));
    assert a == [x1, -y1] && b == [x2, -y2];
    SingleChild(env, line, RootTransform);
    assert ConvertElement(env, line, RootTransform) == Success(EmitPath([seg], RootTransform));
    assert [seg][1..] == [];
    var drawn := Output([DxfLine(a, b)], [SegmentRecord(seg)]);
    assert EmitSegment(seg, RootTransform) == drawn;
    assert EmitPath([seg], RootTransform) == Then(drawn, NoOutput) == drawn;
    assert Convert(env, [line]) == ConvertChildren(env, [line], RootTransform);
  }
}
