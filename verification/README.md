# SVG to DXF conversion core, in Dafny

This project models the conversion engine of an SVG-to-DXF converter. It
covers two source files:

- `src/transform.py`: 2D affine transforms stored as 3×3 matrices of nine
  numbers, read row-major. The file has `mult`, `mult_point`, the
  constructors `matrix`, `translate`, `scale`, `skew_x`, `skew_y` and
  `rotate`, and `parse`, which reads an SVG `transform` attribute.
- `src/svg_to_dxf.py`:
  - the shape normalisers, which turn a line, rect, polygon, polyline,
    circle or ellipse into a path of absolute move, line and cubic commands;
  - the segment emitter, which turns every line, quadratic or cubic segment
    into one DXF line or spline under the current transform, and writes any
    other segment to the debug stream twice;
  - the depth-first walk of the element tree, which composes each element's
    own transform onto the inherited one;
  - the root transform, which flips the y axis.

The modules follow the structure of the two files:

| module | file | models |
|---|---|---|
| `Wrappers` | `wrappers.dfy` | `Option` and `Result`, which carry the Python exceptions of the converter |
| `Strings` | `strings.dfy` | Python's `str.split` with one separator character, `strip()`-emptiness, and `join` as `split`'s inverse |
| `Transforms` | `transform.dfy` | the `Transform` class and its constructors |
| `TransformParse` | `transform_parse.dfy` | `parse`, with `eval` as a parameter |
| `Paths` | `paths.dfy` | pysvg path commands, `svg.path` segments, and the assumed bridge between them |
| `Shapes` | `shapes.dfy` | the `_convert_*_to_path` normalisers and `_cubic_approx_ellipse` |
| `Emitter` | `emitter.dfy` | `__append_path_to_dxf` |
| `Conversion` | `conversion.dfy` | `_convert_element`, `_append_subelements` and `convert` |

Numbers are `real`, so the matrix algebra is exact.

The libraries the converter calls are parameters, not models:

- Python's `eval` is `evalCall`, which maps a call text to a `Call` or fails.
- `math.radians`, `sin`, `cos` and `tan` are the fields of `Trig`.
- `svg.path`'s parser of `d` strings is `parsePath`.
- pysvg's `getEdgePoints` is `edgePoints`.
- `svg.path`'s reading of one coordinate text is `number`, which fails for
  a text that is not a number. The polygon and polyline normalisers put
  their coordinate texts into the path's `d` string without reading them,
  so such a text only makes the conversion abort once that path is parsed.
- The DXF modelspace and the debug stream are the `entities` and `log`
  sequences of an `Output`.

A Python exception aborts `convert` before the DXF file is written. In the
model it is a `Failure`, and no output is returned.

One assumption connects the shape normalisers to the emitter. `svg.path`
must parse a pysvg path so that a move only sets the current point, and each
line or cubic command becomes one segment from the current point.
`Paths.Bridge` states this assumption. It describes an `svg.path` whose
`parse_path` yields only `Line`, `QuadraticBezier`, `CubicBezier` and `Arc`
segments, as the 2.x releases do. Neither library is part of this model.

Three facts about the emitter are easy to miss:

- An elliptical arc segment is written to the debug stream a second time
  and draws nothing (`Emitter.EmitSegment`).
- No entity is given a layer.
- A quadratic curve is promoted to a cubic by repeating its control point
  as both inner control points (`Emitter.QuadLayout`). The resulting cubic
  does not trace the quadratic: `Emitter.DoubledControlMidpoint` proves that
  their midpoints agree only when the control point is midway between the
  end points.

## Model

| member | source | states |
|---|---|---|
| `Transforms.Mult` | src/transform.py:23-28 | the product of two affine transforms (last column `0, 0, 1`) is affine |
| `Transforms.MultLoop` | src/transform.py:23-28 | the double loop of `mult` in `transform.py` over `i` and `j`, summing `entry(i,k) * o.entry(k,j)`, computes exactly `Mult` |
| `Transforms.MultPoint` | src/transform.py:30-35 | `mult_point` maps `(x, y)` to `(m0·x + m3·y + m6, m1·x + m4·y + m7)`; a 3-element input gives 3 elements with `z = 0` whatever the input `z` |
| `Transforms.EntryLayout` | src/transform.py:14-15 | `entry(x, y)` reads `m[3y + x]`, so every slot is exactly one entry |
| `Transforms.EntryTestLayout` | src/transform.py:39-49 | the entries of `Transform(1..9)` are those the unit test asserts |
| `Transforms.AffineIsMatrix` | src/transform.py:74-75 | every affine transform is `matrix(a, b, c, d, e, f)` of its own six entries |
| `Transforms.MatrixMapsPoint` | src/transform.py:74-75 | `matrix(a, b, c, d, e, f)` maps `(x, y)` to `(a·x + c·y + e, b·x + d·y + f)` |
| `Transforms.IdentityUnit` | src/transform.py:71 | `IDENTITY` is a left and a right unit of `mult` |
| `Transforms.IdentityPoint` | src/transform.py:71 | `IDENTITY.mult_point(p) == p` exactly when `p` is a pair or a triple with `z = 0` |
| `Transforms.TranslationColumn` | src/transform.py:17-21 | `x()` and `y()` read the translation column `entry(0, 2)`, `entry(1, 2)`, which is where the origin is sent |
| `Transforms.Matrix` | src/transform.py:74-75 | `a, b` fill the first row and `c, d` the second, `(e, f)` is the translation column, and the result is affine |
| `Transforms.Translate` | src/transform.py:78-79 | the linear part is the identity and the translation column is `(x, y)` |
| `Transforms.Scale` | src/transform.py:82-85 | the diagonal is `(x, y)`, with `y = x` when `y` is missing; there is no shear and no translation |
| `Transforms.SkewX` | src/transform.py:88-90 | the only off-diagonal entry is `entry(0, 1) = tan(a)`, taken of `a` as given; there is no translation |
| `Transforms.SkewY` | src/transform.py:93-95 | the only off-diagonal entry is `entry(1, 0) = tan(a)`; there is no translation |
| `Transforms.Rotate` | src/transform.py:98-111 | the linear part is the rotation by `radians(a)` with or without a pivot; without one there is no translation |
| `Transforms.MultAssoc` | src/transform.py:23-28 | `mult` is associative |
| `Transforms.MultAppliesRightFirst` | src/transform.py:23-35 | for affine `t1`, `t0.mult(t1).mult_point(p) == t0.mult_point(t1.mult_point(p))`: `t1` applies first |
| `Transforms.TranslateCompose` | src/transform.py:51-55 | `translate(a, b).mult(translate(c, d)) == translate(a + c, b + d)` |
| `Transforms.TranslateMovesPoint` | src/transform.py:78-79 | `translate(a, b)` moves every point by `(a, b)` |
| `Transforms.TranslateTestPoint` | src/transform.py:57-61 | `translate(10, 20)` maps `(11, 22)` to `(21, 42)` |
| `Transforms.ScaleMapsPoint` | src/transform.py:82-85 | `scale(x)` equals `scale(x, x)`, and `scale(sx, sy)` multiplies each axis |
| `Transforms.SkewMapsPoint` | src/transform.py:88-95 | `skew_x(a)` adds `tan(a)·y` to x, and `skew_y(a)` adds `tan(a)·x` to y |
| `Transforms.RotateMapsPoint` | src/transform.py:98-102 | without a pivot, `rotate(a)` maps `(x, y)` to `(c·x − s·y, s·x + c·y)` for the cosine and sine of `radians(a)` |
| `Transforms.QuarterTurnMapsPoint` | src/transform.py:98-111 | when the cosine is 0 and the sine is 1, `rotate` maps `(x, y)` to `(−y, x)` |
| `Transforms.RotateQuarterTurn` | src/transform.py:63-68 | `rotate(90)` maps `(3, 4)` to `(−4, 3)`, as the unit test expects |
| `Transforms.RotateAboutPivot` | src/transform.py:104-109 | with a pivot, `rotate` moves the pivot to the origin, rotates, and moves it back |
| `Transforms.RotateFixesPivot` | src/transform.py:98-111 | `rotate(a, p)` leaves `p` where it is |
| `TransformParse.CallTransform` | src/transform.py:116 | each call that `eval` can resolve yields an affine transform |
| `TransformParse.CallTexts` | src/transform.py:115 | there are as many call texts as non-blank pieces between `)`, none exactly when every piece is blank, and each text ends with its `)` |
| `TransformParse.CallTextsInPlace` | src/transform.py:115 | every non-blank piece, with its `)` back, is the call text right after those of the non-blank pieces before it: the texts are the non-blank pieces in order |
| `TransformParse.EvalAll` | src/transform.py:116 | succeeds exactly when every text evaluates; the results are the calls' transforms in order; otherwise the error names a text that failed |
| `TransformParse.Compose` | src/transform.py:117 | the left fold of `mult` over affine transforms is affine |
| `TransformParse.EvalAndCompose` | src/transform.py:116-117 | it fails with `NoTransforms` exactly when the list is empty, because `reduce` has nothing to start from; it succeeds exactly when the list is non-empty and every text evaluates; a `MalformedCall` names a text of the list that `eval` rejects |
| `TransformParse.Parse` | src/transform.py:114-117 | it fails with `NoTransforms` exactly when every piece between `)` is blank; it succeeds exactly when some piece is not blank and `eval` accepts every call text; a `MalformedCall` names a call text `eval` rejects; a result is affine |
| `TransformParse.ParseIgnoresTrailingBlank` | src/transform.py:115 | blanks after the last `)` form a blank piece, which is dropped, so `parse(s + b) == parse(s)` whether or not `s` parses |
| `TransformParse.ComposeAppliesRightmostFirst` | src/transform.py:114-117 | the folded transform maps a point as applying the list from the right does |
| `TransformParse.ComposeAppend` | src/transform.py:117 | folding a concatenation multiplies the two folds |
| `TransformParse.ParseSingleCall` | src/transform.py:114-117 | a single call parses to that call's transform |
| `TransformParse.ParseConcat` | src/transform.py:114-117 | after a complete call list, appending more calls multiplies the parse by theirs |
| `TransformParse.ParseAppliesRightmostFirst` | src/transform.py:114-117 | in `s1 + s2`, the calls of `s2` apply to a point before those of `s1` |
| `TransformParse.ParseOneTranslateTest` | src/transform.py:121-124 | `parse("translate(10,20)") == translate(10, 20)` |
| `TransformParse.ParseTwoCalls` | src/transform.py:114-117 | two calls parse to the product of their transforms |
| `TransformParse.ParseTwoTranslatesTest` | src/transform.py:126-129 | `parse("translate(10,0) translate(0,20)") == translate(10, 20)` |
| `Strings.Split` | src/transform.py:115 | `split` yields one piece more than there are separators, and no piece contains the separator |
| `Strings.SplitJoin` | src/svg_to_dxf.py:46 | splitting pieces joined by the separator gives the pieces back when none contains it |
| `Strings.JoinSplit` | src/svg_to_dxf.py:46 | joining the pieces of a split gives the string back |
| `Strings.SplitAround` | src/transform.py:115 | splitting at one separator splits each side independently |
| `Paths.Bridge` | src/svg_to_dxf.py:116 | under the assumed reading of a pysvg path by `svg.path`, there is one segment per line or cubic command and none per move |
| `Paths.BridgeDraws` | src/svg_to_dxf.py:116-117 | under the bridge assumption, each drawing command yields one segment from the previous command's end point |
| `Paths.MoveThenDraws` | src/svg_to_dxf.py:116-117 | a move then draws gives a chain of segments from the move's point to the last draw's point |
| `Shapes.LineToPath` | src/svg_to_dxf.py:24-28 | the line's path is one segment from `(x1, y1)` to `(x2, y2)` |
| `Shapes.RectToPath` | src/svg_to_dxf.py:31-41 | a missing `x` or `y` becomes 0; the path is a move to the last corner followed by `LineTo(edges[i])` for every corner `i`, in order; an empty corner list raises |
| `Shapes.RectIsClosedLoop` | src/svg_to_dxf.py:31-41 | the rect is a closed chain of segments that are all lines, one per corner, ending at each corner in turn |
| `Shapes.TokenPoint` | src/svg_to_dxf.py:46 | a point token gives two coordinate texts exactly when it contains a comma; otherwise it raises `MissingCoordinate` |
| `Shapes.TokenPoints` | src/svg_to_dxf.py:46 | the tokens give coordinate texts exactly when every token has a comma, one pair per token in order |
| `Shapes.PointList` | src/svg_to_dxf.py:46 | a point list, split at single spaces, gives at least one pair of texts, and does so exactly when every token has a comma |
| `Shapes.ReadPoints` | src/svg_to_dxf.py:47-58 | the coordinate texts read back as points exactly when every text is a number, each point from its own two texts in order; otherwise `BadCoordinate` |
| `Shapes.Coordinates` | src/svg_to_dxf.py:44-59 | a token without a comma raises `MissingCoordinate` before any text is read; otherwise the points read back exactly when every coordinate text is a number |
| `Shapes.TokenPointRoundTrip` | src/svg_to_dxf.py:46 | writing `x,y[,more]` and reading it back gives the two coordinate texts |
| `Shapes.DoubledSpaceFails` | src/svg_to_dxf.py:44-59 | two spaces in a row make an empty token, so a polygon or polyline raises `MissingCoordinate` |
| `Shapes.EmptyCoordinateFails` | src/svg_to_dxf.py:44-59 | `"0,0 1,"` has a comma in every token, yet its empty coordinate text makes the polygon and the polyline fail with `BadCoordinate` |
| `Shapes.PolygonToPath` | src/svg_to_dxf.py:44-50 | fails exactly when its points do, with their error; otherwise a move to the last point followed by `LineTo(ps[i])` for every point `i`, in order, ending where it began |
| `Shapes.PolylineToPath` | src/svg_to_dxf.py:53-59 | fails exactly when its points do, with their error; otherwise a move to the first point followed by `LineTo(ps[i])` for every later point `i`, in order, ending at the last |
| `Shapes.ClosedPathLoop` | src/svg_to_dxf.py:44-50 | the polygon path draws one line per point, chained and closed, the i-th line ending at the i-th point |
| `Shapes.ClosedLoopEnds` | src/svg_to_dxf.py:44-50 | every segment of a closed point path is a line, and the i-th ends at the i-th point |
| `Shapes.OpenPathChain` | src/svg_to_dxf.py:53-59 | the polyline path draws n − 1 chained lines from the first point to the last, with no closing line |
| `Shapes.ClosedIsOpenWithClosingEdge` | src/svg_to_dxf.py:44-59 | the polygon path is the polyline path with one extra line from the last point to the first |
| `Shapes.CubicApproxEllipse` | src/svg_to_dxf.py:62-84 | a move to `(cx − rx, cy)`, then four cubics through the top, right, bottom and back to the start |
| `Shapes.EllipseSmoothClosed` | src/svg_to_dxf.py:62-84 | the four cubics form a closed chain, and at every join the neighbouring control points are mirror images about the join |
| `Shapes.EllipseHandles` | src/svg_to_dxf.py:62-84 | every control point sits `0.55228` times the radius of its axis from its end point, along an axis |
| `Shapes.EllipseToPath` | src/svg_to_dxf.py:87-98 | a missing centre coordinate is 0; the path starts at the left end of the x axis and runs through the top, right, bottom and back to the start |
| `Shapes.CircleToPath` | src/svg_to_dxf.py:101-112 | a missing centre coordinate is 0; the path starts at `(cx − r, cy)` and every end point lies on the circle |
| `Shapes.CircleGeometry` | src/svg_to_dxf.py:101-112 | the circle's end points lie on the circle, and every control point is `0.55228·r` from its end point along the tangent |
| `Shapes.CircleIsEllipse` | src/svg_to_dxf.py:87-112 | a circle is the ellipse with `rx = ry = r`, and a missing centre is the origin |
| `Emitter.Point2` | src/svg_to_dxf.py:16-17 | the 2-tuple is the point mapped through the transform's first two columns and its translation |
| `Emitter.Point3` | src/svg_to_dxf.py:16-21 | the 3-tuple form of a point has the 2-tuple's coordinates and `z = 0` |
| `Emitter.EmitSegment` | src/svg_to_dxf.py:117-144 | a line, quadratic or cubic yields one well-formed entity, and anything else none; a segment is logged once, or twice when not drawn |
| `Emitter.EmitPath` | src/svg_to_dxf.py:115-144 | one entity per drawn segment, every one well formed; the log has one record per segment plus one per segment that is not drawn |
| `Emitter.EmitPathLoop` | src/svg_to_dxf.py:115-144 | the `for segment in parsed` loop of `__append_path_to_dxf`, appending as it goes, produces exactly `EmitPath` |
| `Emitter.EmitPathAppend` | src/svg_to_dxf.py:117 | emitting segments in two runs emits the runs one after the other |
| `Emitter.EmitPathInPlace` | src/svg_to_dxf.py:115-144 | for any path, arcs included: a drawn segment's entity comes right after those of the drawn segments before it, and every segment's one or two records come right after those of the segments before it |
| `Emitter.DrawnCountAll` | src/svg_to_dxf.py:117-144 | every segment is drawn exactly when the drawn count is the path's length |
| `Emitter.DrawnCountAppend` | src/svg_to_dxf.py:117 | the drawn segments of two runs add up |
| `Emitter.EmitPathPointwise` | src/svg_to_dxf.py:117-141 | the special case of a path with no arc: one entity per segment, the i-th entity being the i-th segment's |
| `Emitter.EmitPathLogsInOrder` | src/svg_to_dxf.py:117-118 | the special case of a path with no arc: each segment is written to the debug stream once, in order |
| `Emitter.LineEndpoints` | src/svg_to_dxf.py:119-122 | a line is drawn between its two end points mapped through the transform |
| `Emitter.QuadLayout` | src/svg_to_dxf.py:124-131 | a quadratic becomes the spline of the cubic whose two inner control points are both its control point |
| `Emitter.SplineLayout` | src/svg_to_dxf.py:124-141 | a curve gives one spline with the knots `(0, 0, 0, 0, 1, 1, 1, 1)`; a cubic's control points are its start, `control1`, `control2` and end, mapped, and a quadratic's are its start, its control point twice, and its end |
| `Emitter.DoubledControlMidpoint` | src/svg_to_dxf.py:130 | with the control point doubled, the cubic's midpoint equals the quadratic's exactly when the control point is midway between the end points |
| `Emitter.EmitSegmentUnderMult` | src/svg_to_dxf.py:117-141 | drawing under `t.mult(u)` draws the same entity as drawing the `u`-mapped segment under `t` |
| `Emitter.EmitPathUnderMult` | src/svg_to_dxf.py:115-144 | the same holds for a whole path |
| `Conversion.LocalTransform` | src/svg_to_dxf.py:148-149 | the walk aborts exactly when an element has a non-empty transform that `parse` rejects; an affine inherited transform stays affine |
| `Conversion.ShapeSegments` | src/svg_to_dxf.py:154-179 | a shape aborts exactly for a bad `d`, an empty corner list, a point token without a comma, or a coordinate text that is not a number; a line gives its one segment |
| `Conversion.ConvertElement` | src/svg_to_dxf.py:147-185 | every entity of a converted element is well formed |
| `Conversion.ConvertKind` | src/svg_to_dxf.py:151-185 | text yields nothing; an unknown element yields no entity and one debug record; every entity is well formed |
| `Conversion.ConvertChildren` | src/svg_to_dxf.py:188-190 | the children convert exactly when each of them does, and every entity is well formed |
| `Conversion.Convert` | src/svg_to_dxf.py:193-205 | the document converts exactly when each top-level element does under the y flip, and every entity is well formed |
| `Conversion.ConvertChildrenAppend` | src/svg_to_dxf.py:188-190 | two runs of siblings convert one after the other, and the first failure wins |
| `Conversion.FirstFailureWins` | src/svg_to_dxf.py:188-190 | the error of the walk is that of the first child that fails |
| `Conversion.NoTransformInherits` | src/svg_to_dxf.py:148 | an element without a transform is drawn under the inherited one |
| `Conversion.TransformComposes` | src/svg_to_dxf.py:148-149 | an element with a transform is drawn, with all its children, under the inherited one times the parsed one |
| `Conversion.TextIsSkipped` | src/svg_to_dxf.py:181-182 | text content draws and logs nothing |
| `Conversion.UnsupportedIsLogged` | src/svg_to_dxf.py:184-185 | an unknown element draws nothing and is logged once, after its transform is parsed |
| `Conversion.BlankTransformAborts` | src/svg_to_dxf.py:148-149 | a transform attribute of blanks only is present, so `parse` raises and the conversion aborts |
| `Conversion.PlainGroupIsTransparent` | src/svg_to_dxf.py:151-152 | a group without a transform converts exactly like its children put in its place |
| `Conversion.NestedTransformsCompose` | src/svg_to_dxf.py:148-152 | a group's transform `s1` around an element with transform `s2` acts like the single transform `s1 + s2` |
| `Conversion.LocalTransformMapsShape` | src/svg_to_dxf.py:148-179 | a shape with a local transform draws its locally mapped segments under the inherited transform |
| `Conversion.RootFlipsY` | src/svg_to_dxf.py:203 | at the root, a line from `(x1, y1)` to `(x2, y2)` is drawn from `(x1, −y1)` to `(x2, −y2)` |

## Left out

- `src/server.py`, the HTTP wrapper around `convert`. It is request and
  response I/O only.
- Reading the SVG file (`pysvg.parser.parse`) and writing the DXF file
  (`ezdxf.new`, `write`). The model starts from an element tree and stops at
  the two output sequences.
- `svg.path`'s parser, pysvg's d-string building and `getEdgePoints`, and
  `ezdxf`'s `add_line` and `add_spline`. Each is a parameter, a datatype or
  the `Paths.Bridge` assumption.
- Python's `eval` inside `parse`. It is the parameter `evalCall`, whose
  `Call` datatype deliberately restricts `eval` to the six transform
  constructors: `translate(x, y)`, `scale(x[, y])`, `rotate(a[, [x, y]])`,
  `skew_x(a)`, `skew_y(a)` and `matrix(a, b, c, d, e, f)`. SVG's `skewX`, `skewY`,
  one-argument `translate` and `rotate(a, cx, cy)` are not accepted. A pivot
  written as a tuple `(x, y)` never reaches `rotate`: its `)` cuts the call
  text at `src/transform.py:115`, and `eval` raises on the first piece.
- TransformParse.Parse: its result is affine only because `Call` holds the
  six constructors. `eval` runs in the globals of `transform.py`, so it also
  accepts `Transform([...])` with any nine entries (a matrix that need not
  be affine), method calls such as `IDENTITY.mult(translate(1, 2))`,
  keyword arguments, and any other expression over `math`, `unittest` and
  the module's names. None of these are represented.
- Floating point and the trigonometric functions. Numbers are `real` and
  `math.radians`, `sin`, `cos` and `tan` are uninterpreted. The radial error
  of the `0.55228` circle approximation is not stated.
- The float conversion of the line, circle and ellipse attributes
  (`src/svg_to_dxf.py:26-27`, `92-95`, `107-109`). Their coordinates and radii
  arrive as reals, and a missing or non-numeric line end or radius, which
  raises in `float(...)`, is not represented.
- The rect's size. `_convert_rect_to_path` hands `width` and `height` to
  pysvg's `getEdgePoints` without converting them, so a bad size fails, if
  at all, inside `getEdgePoints`, which is the `edgePoints` parameter.
- A `<polygon>` or `<polyline>` without a `points` attribute. `get_points()`
  returns `None` and `.split` raises (`src/svg_to_dxf.py:46`, `55`); the model
  has no missing `points` and takes the attribute as a string.
- Paths.Bridge: a newer `svg.path` whose `parse_path` also yields `Move` and
  `Close` segments would send each of them to the debug stream twice
  (`src/svg_to_dxf.py:118`, `144`), so the log counts of `Emitter.EmitPath`
  hold only for the releases the assumption describes.
- A `<path>` without a `d` attribute. `parse_path(None)` raises; the model
  has no missing `d` and represents one as a `d` string `parsePath` rejects.
- The `hasattr(element, 'get_transform')` test. `Element.transform` is what
  `get_transform()` returns, with `""` standing for a class that has no such
  method; `TextContent` is the one kind treated as lacking it.
- Styles (`get_style`/`set_style`). They are copied onto the built path and
  never reach the DXF output.
- The root `<svg>` element's own transform. `convert` walks the root's
  children without looking at it, and the model takes the children as input.
- What the debug stream prints. Only which objects are printed, and in what
  order, is kept.
- The debug records of a conversion that aborts. A `Failure` carries no
  `Output`, so the records `convert` has already printed before raising
  are not kept.
- Whether a debug stream exists at all. With `debug_out=None`, as
  `src/server.py:26` calls `convert`, nothing is printed, but the model's
  `log` is built either way.
- Shapes.ReadPoints: reads every coordinate text on its own. `svg.path`
  tokenises the whole `d` string instead, so an empty text or one such as
  `1-2` (two numbers to it) can shift the numbers that follow. That
  re-tokenisation, and how pysvg formats the texts into the `d` string, are
  not modelled.
- `Emitter.QuadLayout`: states only the point layout of the promoted
  quadratic, not that the spline traces the quadratic curve, because it does
  not (see `Emitter.DoubledControlMidpoint`).
- The unit-test scaffolding of `src/transform.py`. Its assertions are stated
  as the `...Test...` lemmas.
