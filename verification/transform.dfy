/** The 2D affine transform algebra of `src/transform.py`.

    A transform is a 3x3 matrix of nine coefficients stored row-major and
    read through `Entry(x, y) = m[3y + x]`. Points are row vectors
    `[x, y, 1]` multiplied on the left, so `Matrix(a, b, c, d, e, f)` maps
    `(x, y)` to `(a x + c y + e, b x + d y + f)`, and `Mult(t0, t1)` is the
    row-major product `T1 * T0`: applying it applies `t1` first. */
module Transforms {
  import opened Wrappers

  type Coeffs = m: seq<real> | |m| == 9 witness [1.0, 0.0, 0.0, 0.0, 1.0, 0.0, 0.0, 0.0, 1.0]

  datatype Transform = Transform(m: Coeffs) {

    /** Column `x`, row `y` of the matrix. */
    function Entry(x: nat, y: nat): real
      requires x < 3 && y < 3
    {
      m[y * 3 + x]
    }

    /** The translation part as read by `mult_point`: entries 6 and 7. */
    function X(): real { m[6] }
    function Y(): real { m[7] }
  }

  /** The trigonometry `transform.py` takes from Python's `math` module; it is
      a parameter of the model, never computed. */
  datatype Trig = Trig(radians: real -> real, sin: real -> real, cos: real -> real, tan: real -> real)

  /** The last column is (0, 0, 1): the matrix is a 2D affine map. */
  predicate IsAffine(t: Transform) {
    t.m[2] == 0.0 && t.m[5] == 0.0 && t.m[8] == 1.0
  }

  /** The `sum(...)` of one product entry: row `i` of `t0` against column
      `j` of `t1`, in the convention of `entry`. */
  function Dot(t0: Transform, t1: Transform, i: nat, j: nat): real
    requires i < 3 && j < 3
  {
    t0.Entry(i, 0) * t1.Entry(0, j) + t0.Entry(i, 1) * t1.Entry(1, j) + t0.Entry(i, 2) * t1.Entry(2, j)
  }

  /** `t0.mult(t1)`: slot `3j + i` of the product holds `Dot(t0, t1, i, j)`. */
  function Mult(t0: Transform, t1: Transform): (r: Transform)
    ensures IsAffine(t0) && IsAffine(t1) ==> IsAffine(r)
  {
    Transform([Dot(t0, t1, 0, 0), Dot(t0, t1, 1, 0), Dot(t0, t1, 2, 0),
               Dot(t0, t1, 0, 1), Dot(t0, t1, 1, 1), Dot(t0, t1, 2, 1),
               Dot(t0, t1, 0, 2), Dot(t0, t1, 1, 2), Dot(t0, t1, 2, 2)])
  }

  /** `mult` as `Transform.mult` in `transform.py` computes it: a double loop that fills slot
      `j * 3 + i` with the sum for column `i` and row `j`. */
  method MultLoop(t0: Transform, t1: Transform) returns (r: Transform)
    ensures r == Mult(t0, t1)
  {
    r := Transform([0.0, 0.0, 0.0, 0.0, 0.0, 0.0, 0.0, 0.0, 0.0]);
    for i := 0 to 3
      invariant forall i', j' :: 0 <= i' < i && 0 <= j' < 3 ==> r.Entry(i', j') == Dot(t0, t1, i', j')
    {
      for j := 0 to 3
        invariant forall i', j' :: 0 <= i' < i && 0 <= j' < 3 ==> r.Entry(i', j') == Dot(t0, t1, i', j')
        invariant forall j' :: 0 <= j' < j ==> r.Entry(i, j') == Dot(t0, t1, i, j')
      {
        r := Transform(r.m[j * 3 + i := Dot(t0, t1, i, j)]);
      }
    }
    assert r.Entry(0, 0) == Dot(t0, t1, 0, 0) && r.Entry(1, 0) == Dot(t0, t1, 1, 0) && r.Entry(2, 0) == Dot(t0, t1, 2, 0);
    assert r.Entry(0, 1) == Dot(t0, t1, 0, 1) && r.Entry(1, 1) == Dot(t0, t1, 1, 1) && r.Entry(2, 1) == Dot(t0, t1, 2, 1);
    assert r.Entry(0, 2) == Dot(t0, t1, 0, 2) && r.Entry(1, 2) == Dot(t0, t1, 1, 2) && r.Entry(2, 2) == Dot(t0, t1, 2, 2);
  }

  /** `t.mult_point(p)`: embed `p` as a translation, multiply, and read the
      translation part back; a 3-element input gets a third component 0. */
  function MultPoint(t: Transform, p: seq<real>): (r: seq<real>)
    requires |p| >= 2
    ensures |r| == (if |p| == 3 then 3 else 2)
    ensures r[0] == t.m[0] * p[0] + t.m[3] * p[1] + t.m[6]
    ensures r[1] == t.m[1] * p[0] + t.m[4] * p[1] + t.m[7]
    ensures |p| == 3 ==> r[2] == 0.0
  {
    var moved := Mult(t, Translate(p[0], p[1]));
    [moved.X(), moved.Y()] + (if |p| == 3 then [0.0] else [])
  }

  const Identity: Transform := Transform([1.0, 0.0, 0.0, 0.0, 1.0, 0.0, 0.0, 0.0, 1.0])

  /** `matrix(a, b, c, d, e, f)`: the affine map with linear part
      `(a b; c d)` and translation `(e, f)`. */
  function Matrix(a: real, b: real, c: real, d: real, e: real, f: real): (r: Transform)
    ensures IsAffine(r)
    ensures r.Entry(0, 0) == a && r.Entry(1, 0) == b && r.Entry(0, 1) == c && r.Entry(1, 1) == d
    ensures r.X() == e && r.Y() == f
  {
    Transform([a, b, 0.0, c, d, 0.0, e, f, 1.0])
  }

  /** `translate(x, y)`: the identity's linear part with the translation
      column `(x, y)`. */
  function Translate(x: real, y: real): (r: Transform)
    ensures IsAffine(r)
    ensures r.Entry(0, 0) == 1.0 && r.Entry(1, 0) == 0.0 && r.Entry(0, 1) == 0.0 && r.Entry(1, 1) == 1.0
    ensures r.X() == x && r.Y() == y
  {
    Matrix(1.0, 0.0, 0.0, 1.0, x, y)
  }

  /** `scale(x, y=None)`: a missing `y` scales uniformly by `x`. */
  function Scale(x: real, y: Option<real>): (r: Transform)
    ensures IsAffine(r)
    ensures r.Entry(0, 0) == x && r.Entry(1, 1) == (if y.Some? then y.value else x)
    ensures r.Entry(1, 0) == 0.0 && r.Entry(0, 1) == 0.0 && r.X() == 0.0 && r.Y() == 0.0
  {
    var sy := y.GetOr(x);
    Matrix(x, 0.0, 0.0, sy, 0.0, 0.0)
  }

  /** `skew_x(a)`: the argument goes to `tan` as given, with no degree
      conversion. */
  function SkewX(a: real, trig: Trig): (r: Transform)
    ensures IsAffine(r)
    ensures r.Entry(0, 1) == trig.tan(a) && r.Entry(1, 0) == 0.0
    ensures r.Entry(0, 0) == 1.0 && r.Entry(1, 1) == 1.0 && r.X() == 0.0 && r.Y() == 0.0
  {
    Matrix(1.0, 0.0, trig.tan(a), 1.0, 0.0, 0.0)
  }

  /** `skew_y(a)`: the mirror of `skew_x`, shearing y by x. */
  function SkewY(a: real, trig: Trig): (r: Transform)
    ensures IsAffine(r)
    ensures r.Entry(1, 0) == trig.tan(a) && r.Entry(0, 1) == 0.0
    ensures r.Entry(0, 0) == 1.0 && r.Entry(1, 1) == 1.0 && r.X() == 0.0 && r.Y() == 0.0
  {
    Matrix(1.0, trig.tan(a), 0.0, 1.0, 0.0, 0.0)
  }

  /** The rotation matrix by an angle whose cosine and sine are given. */
  function Rotation(cosa: real, sina: real): (r: Transform)
    ensures IsAffine(r)
  {
    Matrix(cosa, sina, -sina, cosa, 0.0, 0.0)
  }

  /** `rotate(a, p=None)`: rotate by `a` degrees, about the origin or about
      the pivot `p` (translate the pivot to the origin, rotate, translate
      back). */
  function Rotate(a: real, pivot: Option<(real, real)>, trig: Trig): (r: Transform)
    ensures IsAffine(r)
    ensures var c, s := trig.cos(trig.radians(a)), trig.sin(trig.radians(a));
      r.Entry(0, 0) == c && r.Entry(1, 0) == s && r.Entry(0, 1) == -s && r.Entry(1, 1) == c
    ensures pivot.None? ==> r.X() == 0.0 && r.Y() == 0.0
  {
    var rad := trig.radians(a);
    var rotation := Rotation(trig.cos(rad), trig.sin(rad));
    match pivot
    case None => rotation
    case Some(p) =>
      var inner := Translate(-p.0, -p.1);
      var outer := Translate(p.0, p.1);
      Mult(outer, Mult(rotation, inner))
  }

  // ---------------------------------------------------------------------
  // Properties of the algebra

  /** The nine slots are read row-major: slot `n` is column `n % 3` of
      row `n / 3`, and every slot is read by exactly that entry. */
  lemma EntryLayout(t: Transform)
    ensures forall n :: 0 <= n < 9 ==> t.m[n] == t.Entry(n % 3, n / 3)
  {
    forall n | 0 <= n < 9
      ensures t.m[n] == t.Entry(n % 3, n / 3)
    {
      assert n == 0 || n == 1 || n == 2 || n == 3 || n == 4 || n == 5 || n == 6 || n == 7 || n == 8;
    }
  }

  /** The layout `TransformTest.testEntry` in `transform.py` asserts for (1, ..., 9). */
  lemma EntryTestLayout()
    ensures var t := Transform([1.0, 2.0, 3.0, 4.0, 5.0, 6.0, 7.0, 8.0, 9.0]);
      && t.Entry(0, 0) == 1.0 && t.Entry(0, 1) == 4.0 && t.Entry(0, 2) == 7.0
      && t.Entry(1, 0) == 2.0 && t.Entry(1, 1) == 5.0 && t.Entry(1, 2) == 8.0
      && t.Entry(2, 0) == 3.0 && t.Entry(2, 1) == 6.0 && t.Entry(2, 2) == 9.0
  {
  }

  /** Every affine transform is a `matrix(...)` of its own coefficients. */
  lemma AffineIsMatrix(t: Transform)
    requires IsAffine(t)
    ensures t == Matrix(t.m[0], t.m[1], t.m[3], t.m[4], t.m[6], t.m[7])
  {
  }

  /** `matrix(a, b, c, d, e, f)` maps `(x, y)` to `(a x + c y + e, b x + d y + f)`. */
  lemma MatrixMapsPoint(a: real, b: real, c: real, d: real, e: real, f: real, p: seq<real>)
    requires |p| >= 2
    ensures var r := MultPoint(Matrix(a, b, c, d, e, f), p);
      r[0] == a * p[0] + c * p[1] + e && r[1] == b * p[0] + d * p[1] + f
  {
  }

  /** `IDENTITY` is a two-sided unit of `mult`. */
  lemma IdentityUnit(t: Transform)
    ensures Mult(Identity, t) == t
    ensures Mult(t, Identity) == t
  {
  }

  /** `IDENTITY.mult_point(p)` gives `p` back exactly when `p` is a 2-point
      or a 3-point whose third component is already 0: a third component
      is always replaced by 0 and anything past it dropped. */
  lemma IdentityPoint(p: seq<real>)
    requires |p| >= 2
    ensures MultPoint(Identity, p) == p <==> |p| == 2 || (|p| == 3 && p[2] == 0.0)
  {
    var r := MultPoint(Identity, p);
    if |p| == 2 {
      assert r == p;
    } else if |p| == 3 && p[2] == 0.0 {
      assert r == p;
    }
  }

  lemma EntryOfMult(t0: Transform, t1: Transform, i: nat, j: nat)
    requires i < 3 && j < 3
    ensures Mult(t0, t1).Entry(i, j) == Dot(t0, t1, i, j)
  {
    assert i == 0 || i == 1 || i == 2;
    assert j == 0 || j == 1 || j == 2;
  }

  /** Distributivity behind associativity, for one entry of the product. */
  lemma SumAssoc(a0: real, a1: real, a2: real,
                 b00: real, b01: real, b02: real, b10: real, b11: real, b12: real,
                 b20: real, b21: real, b22: real, c0: real, c1: real, c2: real)
    ensures (a0 * b00 + a1 * b10 + a2 * b20) * c0 + (a0 * b01 + a1 * b11 + a2 * b21) * c1
          + (a0 * b02 + a1 * b12 + a2 * b22) * c2
         == a0 * (b00 * c0 + b01 * c1 + b02 * c2) + a1 * (b10 * c0 + b11 * c1 + b12 * c2)
          + a2 * (b20 * c0 + b21 * c1 + b22 * c2)
  {
  }

  /** One entry of `(ab)c` equals the same entry of `a(bc)`. */
  lemma DotAssoc(a: Transform, b: Transform, c: Transform, i: nat, j: nat)
    requires i < 3 && j < 3
    ensures Dot(Mult(a, b), c, i, j) == Dot(a, Mult(b, c), i, j)
  {
    EntryOfMult(a, b, i, 0); EntryOfMult(a, b, i, 1); EntryOfMult(a, b, i, 2);
    EntryOfMult(b, c, 0, j); EntryOfMult(b, c, 1, j); EntryOfMult(b, c, 2, j);
    DotAssocFrom(a, b, c, Mult(a, b), Mult(b, c), i, j);
  }

  /** The same, for any `ab` and `bc` known entry by entry to be the products. */
  lemma DotAssocFrom(a: Transform, b: Transform, c: Transform, ab: Transform, bc: Transform, i: nat, j: nat)
    requires i < 3 && j < 3
    requires ab.Entry(i, 0) == Dot(a, b, i, 0) && ab.Entry(i, 1) == Dot(a, b, i, 1) && ab.Entry(i, 2) == Dot(a, b, i, 2)
    requires bc.Entry(0, j) == Dot(b, c, 0, j) && bc.Entry(1, j) == Dot(b, c, 1, j) && bc.Entry(2, j) == Dot(b, c, 2, j)
    ensures Dot(ab, c, i, j) == Dot(a, bc, i, j)
  {
    SumAssoc(a.Entry(i, 0), a.Entry(i, 1), a.Entry(i, 2),
             b.Entry(0, 0), b.Entry(0, 1), b.Entry(0, 2),
             b.Entry(1, 0), b.Entry(1, 1), b.Entry(1, 2),
             b.Entry(2, 0), b.Entry(2, 1), b.Entry(2, 2),
             c.Entry(0, j), c.Entry(1, j), c.Entry(2, j));
  }

  /** `mult` is associative. */
  lemma MultAssoc(a: Transform, b: Transform, c: Transform)
    ensures Mult(Mult(a, b), c) == Mult(a, Mult(b, c))
  {
    DotAssoc(a, b, c, 0, 0); DotAssoc(a, b, c, 1, 0); DotAssoc(a, b, c, 2, 0);
    DotAssoc(a, b, c, 0, 1); DotAssoc(a, b, c, 1, 1); DotAssoc(a, b, c, 2, 1);
    DotAssoc(a, b, c, 0, 2); DotAssoc(a, b, c, 1, 2); DotAssoc(a, b, c, 2, 2);
  }

  /** `t0.mult(t1)` applies `t1` first and then `t0`, for an affine `t1`. */
  lemma MultAppliesRightFirst(t0: Transform, t1: Transform, p: seq<real>)
    requires IsAffine(t1)
    requires |p| >= 2
    ensures MultPoint(Mult(t0, t1), p) == MultPoint(t0, MultPoint(t1, p))
  {
    var q := MultPoint(t1, p);
    var lhs := MultPoint(Mult(t0, t1), p);
    var rhs := MultPoint(t0, q);
    var m := Mult(t0, t1);
    ProductSlots(t0, t1);
    RowCompose(t0.m[0], t0.m[3], t0.m[6], t1.m[0], t1.m[1], t1.m[3], t1.m[4], t1.m[6], t1.m[7],
               p[0], p[1], m.m[0], m.m[3], m.m[6], q[0], q[1]);
    RowCompose(t0.m[1], t0.m[4], t0.m[7], t1.m[0], t1.m[1], t1.m[3], t1.m[4], t1.m[6], t1.m[7],
               p[0], p[1], m.m[1], m.m[4], m.m[7], q[0], q[1]);
    assert lhs[0] == rhs[0];
    assert lhs[1] == rhs[1];
  }

  /** The six slots of `t0.mult(t1)` that `mult_point` reads, for an affine
      `t1` whose last column contributes nothing. */
  lemma ProductSlots(t0: Transform, t1: Transform)
    requires IsAffine(t1)
    ensures var m := Mult(t0, t1);
      && m.m[0] == t0.m[0] * t1.m[0] + t0.m[3] * t1.m[1]
      && m.m[3] == t0.m[0] * t1.m[3] + t0.m[3] * t1.m[4]
      && m.m[6] == t0.m[0] * t1.m[6] + t0.m[3] * t1.m[7] + t0.m[6]
      && m.m[1] == t0.m[1] * t1.m[0] + t0.m[4] * t1.m[1]
      && m.m[4] == t0.m[1] * t1.m[3] + t0.m[4] * t1.m[4]
      && m.m[7] == t0.m[1] * t1.m[6] + t0.m[4] * t1.m[7] + t0.m[7]
  {
    EntryOfMult(t0, t1, 0, 0); EntryOfMult(t0, t1, 0, 1); EntryOfMult(t0, t1, 0, 2);
    EntryOfMult(t0, t1, 1, 0); EntryOfMult(t0, t1, 1, 1); EntryOfMult(t0, t1, 1, 2);
  }

  /** `AffineRow` for entries and an image already known by name: the
      product's row applied to `(x, y)` is the first map's row applied to
      the second map's image `(q0, q1)`. */
  lemma RowCompose(a0: real, a3: real, a6: real, b0: real, b1: real, b3: real, b4: real, b6: real, b7: real,
                   x: real, y: real, m0: real, m3: real, m6: real, q0: real, q1: real)
    requires m0 == a0 * b0 + a3 * b1 && m3 == a0 * b3 + a3 * b4 && m6 == a0 * b6 + a3 * b7 + a6
    requires q0 == b0 * x + b3 * y + b6 && q1 == b1 * x + b4 * y + b7
    ensures m0 * x + m3 * y + m6 == a0 * q0 + a3 * q1 + a6
  {
    AffineRow(a0, a3, a6, b0, b1, b3, b4, b6, b7, x, y);
  }

  /** One output coordinate of the product, regrouped as the first map's
      row applied to the second map's image. */
  lemma AffineRow(a0: real, a3: real, a6: real, b0: real, b1: real, b3: real, b4: real, b6: real, b7: real, x: real, y: real)
    ensures (a0 * b0 + a3 * b1) * x + (a0 * b3 + a3 * b4) * y + (a0 * b6 + a3 * b7 + a6)
         == a0 * (b0 * x + b3 * y + b6) + a3 * (b1 * x + b4 * y + b7) + a6
  {
  }

  /** `x()` and `y()` read the translation column, which is where the
      origin is sent. */
  lemma TranslationColumn(t: Transform)
    ensures t.X() == t.Entry(0, 2) && t.Y() == t.Entry(1, 2)
    ensures MultPoint(t, [0.0, 0.0]) == [t.X(), t.Y()]
  {
  }

  /** Translations compose by adding their offsets; `TransformTest.testMult` in `transform.py`. */
  lemma TranslateCompose(a: real, b: real, c: real, d: real)
    ensures Mult(Translate(a, b), Translate(c, d)) == Translate(a + c, b + d)
  {
  }

  /** `translate(a, b)` moves every point by `(a, b)`. */
  lemma TranslateMovesPoint(a: real, b: real, p: seq<real>)
    requires |p| >= 2
    ensures var r := MultPoint(Translate(a, b), p);
      r[0] == p[0] + a && r[1] == p[1] + b
  {
  }

  /** `TransformTest.testTranslatePoint` in `transform.py`: `(11, 22)` moves to `(21, 42)`. */
  lemma TranslateTestPoint()
    ensures MultPoint(Translate(10.0, 20.0), [11.0, 22.0]) == [21.0, 42.0]
  {
    TranslateMovesPoint(10.0, 20.0, [11.0, 22.0]);
  }

  /** `scale(x)` is `scale(x, x)`, and `scale(sx, sy)` scales each axis. */
  lemma ScaleMapsPoint(sx: real, sy: real, p: seq<real>)
    requires |p| >= 2
    ensures Scale(sx, None) == Scale(sx, Some(sx))
    ensures var r := MultPoint(Scale(sx, Some(sy)), p);
      r[0] == sx * p[0] && r[1] == sy * p[1]
  {
  }

  /** `skew_x(a)` shears x by `tan(a) * y`; `skew_y(a)` shears y by `tan(a) * x`. */
  lemma SkewMapsPoint(a: real, trig: Trig, p: seq<real>)
    requires |p| >= 2
    ensures var r := MultPoint(SkewX(a, trig), p);
      r[0] == p[0] + trig.tan(a) * p[1] && r[1] == p[1]
    ensures var r := MultPoint(SkewY(a, trig), p);
      r[0] == p[0] && r[1] == trig.tan(a) * p[0] + p[1]
  {
  }

  /** `rotate(a)` maps `(x, y)` to `(cos x - sin y, sin x + cos y)`. */
  lemma RotateMapsPoint(a: real, trig: Trig, p: seq<real>)
    requires |p| >= 2
    ensures var c, s := trig.cos(trig.radians(a)), trig.sin(trig.radians(a));
      var r := MultPoint(Rotate(a, None, trig), p);
      r[0] == c * p[0] - s * p[1] && r[1] == s * p[0] + c * p[1]
  {
  }

  lemma PairOf(r: seq<real>)
    requires |r| == 2
    ensures r == [r[0], r[1]]
  {
  }

  /** An angle whose cosine is 0 and sine is 1 turns `(x, y)` into `(-y, x)`. */
  lemma QuarterTurnMapsPoint(a: real, trig: Trig, x: real, y: real)
    requires trig.cos(trig.radians(a)) == 0.0 && trig.sin(trig.radians(a)) == 1.0
    ensures MultPoint(Rotate(a, None, trig), [x, y]) == [-y, x]
  {
    var r := MultPoint(Rotate(a, None, trig), [x, y]);
    RotateMapsPoint(a, trig, [x, y]);
    PairOf(r);
  }

  /** `TransformTest.testRotatePoint` in `transform.py`: with cos 90° = 0 and sin 90° = 1,
      `rotate(90)` maps `(3, 4)` to `(-4, 3)`. */
  lemma RotateQuarterTurn(trig: Trig)
    requires trig.cos(trig.radians(90.0)) == 0.0 && trig.sin(trig.radians(90.0)) == 1.0
    ensures MultPoint(Rotate(90.0, None, trig), [3.0, 4.0]) == [-4.0, 3.0]
  {
    QuarterTurnMapsPoint(90.0, trig, 3.0, 4.0);
  }

  /** `rotate(a, p)` rotates every point about `p`: the offset from the
      pivot is rotated and the pivot added back. */
  lemma RotateAboutPivot(a: real, px: real, py: real, trig: Trig, q: seq<real>)
    requires |q| >= 2
    ensures var c, s := trig.cos(trig.radians(a)), trig.sin(trig.radians(a));
      var r := MultPoint(Rotate(a, Some((px, py)), trig), q);
      r[0] == px + c * (q[0] - px) - s * (q[1] - py) && r[1] == py + s * (q[0] - px) + c * (q[1] - py)
  {
    var rad := trig.radians(a);
    var rotation := Rotation(trig.cos(rad), trig.sin(rad));
    var inner := Translate(-px, -py);
    var outer := Translate(px, py);
    MultAppliesRightFirst(outer, Mult(rotation, inner), q);
    MultAppliesRightFirst(rotation, inner, q);
  }

  /** Whatever the angle, `rotate(a, p)` leaves the pivot `p` fixed. */
  lemma RotateFixesPivot(a: real, px: real, py: real, trig: Trig)
    ensures MultPoint(Rotate(a, Some((px, py)), trig), [px, py]) == [px, py]
  {
    var c, s := trig.cos(trig.radians(a)), trig.sin(trig.radians(a));
    var r := MultPoint(Rotate(a, Some((px, py)), trig), [px, py]);
    RotateAboutPivot(a, px, py, trig, [px, py]);
    assert r[0] == px + c * (px - px) - s * (py - py) == px;
    assert r[1] == py + s * (px - px) + c * (py - py) == py;
  }
}
