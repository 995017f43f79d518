/** `parse` of `src/transform.py`: a transform attribute is split at every
    `)`, blank pieces are dropped, each remaining piece gets its `)` back
    and is evaluated as one call, and the calls are folded left with
    `mult`, so the rightmost call in the text is applied first.

    Python's `eval` is not modelled: it is the parameter `evalCall`, which
    either recognises a call text or fails. */
module TransformParse {
  import opened Wrappers
  import opened Strings
  import opened Transforms

  /** The six transform constructors the model lets `eval` reach, with
      their accepted arities; README's "## Left out" lists what else `eval`
      accepts in the namespace of `transform.py`. The SVG spellings
      `skewX`/`skewY`, a one-argument `translate` and `rotate(a, cx, cy)`
      are not among them.
      A rotation pivot can only arrive as a list `[x, y]`: a tuple `(x, y)`
      brings a `)` of its own, which cuts the call text in two. */
  datatype Call =
    | TranslateCall(tx: real, ty: real)
    | ScaleCall(sx: real, sy: Option<real>)
    | RotateCall(angle: real, pivot: Option<(real, real)>)
    | SkewXCall(skew: real)
    | SkewYCall(skew: real)
    | MatrixCall(a: real, b: real, c: real, d: real, e: real, f: real)

  /** Why `parse` raises: `reduce` of an empty list, or a piece `eval`
      rejects. */
  datatype TransformError = NoTransforms | MalformedCall(text: string)

  /** The transform one evaluated call returns. */
  function CallTransform(call: Call, trig: Trig): (r: Transform)
    ensures IsAffine(r)
  {
    match call
    case TranslateCall(x, y) => Translate(x, y)
    case ScaleCall(x, y) => Scale(x, y)
    case RotateCall(a, p) => Rotate(a, p, trig)
    case SkewXCall(a) => SkewX(a, trig)
    case SkewYCall(a) => SkewY(a, trig)
    case MatrixCall(a, b, c, d, e, f) => Matrix(a, b, c, d, e, f)
  }

  /** No piece has anything left once stripped. */
  predicate AllBlank(pieces: seq<string>) {
    forall i :: 0 <= i < |pieces| ==> IsBlank(pieces[i])
  }

  /** Number of pieces with something left once stripped. */
  function NonBlankCount(pieces: seq<string>): (n: nat)
    ensures n <= |pieces|
  {
    if |pieces| == 0 then 0
    else (if IsBlank(pieces[0]) then 0 else 1) + NonBlankCount(pieces[1..])
  }

  /** `[s + ")" for s in pieces if s.strip()]`: there is a call text for
      every non-blank piece, and none at all exactly when every piece is
      blank. `CallTextsInPlace` says where each piece's text sits. */
  function CallTexts(pieces: seq<string>): (r: seq<string>)
    ensures |r| == NonBlankCount(pieces)
    ensures |r| == 0 <==> AllBlank(pieces)
    ensures forall i :: 0 <= i < |r| ==> |r[i]| > 0 && r[i][|r[i]| - 1] == ')'
    ensures |r| <= |pieces|
  {
    if |pieces| == 0 then []
    else
      var rest := CallTexts(pieces[1..]);
      if IsBlank(pieces[0]) then
        assert forall i :: 1 <= i < |pieces| ==> pieces[i] == pieces[1..][i - 1];
        rest
      else [pieces[0] + ")"] + rest
  }

  /** Every call text is one `eval` resolves. */
  predicate AllEvaluate(texts: seq<string>, evalCall: string -> Option<Call>) {
    forall i :: 0 <= i < |texts| ==> evalCall(texts[i]).Some?
  }

  /** `[eval(t) for t in texts]`: every text evaluates, or the first one that
      does not is the error. */
  function EvalAll(texts: seq<string>, evalCall: string -> Option<Call>, trig: Trig): (r: Result<seq<Transform>, TransformError>)
    ensures r.Success? <==> AllEvaluate(texts, evalCall)
    ensures r.Success? ==> |r.value| == |texts|
    ensures r.Success? ==> forall i :: 0 <= i < |texts| ==> r.value[i] == CallTransform(evalCall(texts[i]).value, trig)
    ensures r.Failure? ==> exists i :: 0 <= i < |texts| && evalCall(texts[i]).None? && r.error == MalformedCall(texts[i])
  {
    if |texts| == 0 then Success([])
    else match evalCall(texts[0])
      case None => Failure(MalformedCall(texts[0]))
      case Some(call) =>
        match EvalAll(texts[1..], evalCall, trig)
        case Failure(e) => Failure(e)
        case Success(ts) => Success([CallTransform(call, trig)] + ts)
  }

  /** `reduce(__mult, ts)`: the left fold `(...(t0 * t1) * ...) * tn`. */
  function Compose(ts: seq<Transform>): (r: Transform)
    requires |ts| > 0
    ensures (forall i :: 0 <= i < |ts| ==> IsAffine(ts[i])) ==> IsAffine(r)
  {
    if |ts| == 1 then ts[0]
    else Mult(Compose(ts[..|ts| - 1]), ts[|ts| - 1])
  }

  /** Evaluating the call texts and folding them; an empty list is the
      error `reduce` raises. */
  function EvalAndCompose(texts: seq<string>, evalCall: string -> Option<Call>, trig: Trig): (r: Result<Transform, TransformError>)
    ensures r == Failure(NoTransforms) <==> |texts| == 0
    ensures r.Success? <==> |texts| > 0 && AllEvaluate(texts, evalCall)
    ensures r.Failure? && r.error.MalformedCall? ==> r.error.text in texts && evalCall(r.error.text).None?
    ensures r.Success? ==> IsAffine(r.value)
  {
    match EvalAll(texts, evalCall, trig)
    case Failure(e) => Failure(e)
    case Success(ts) =>
      if |ts| == 0 then Failure(NoTransforms)
      else
        assert forall i :: 0 <= i < |ts| ==> IsAffine(ts[i]) by {
          forall i | 0 <= i < |ts| ensures IsAffine(ts[i]) {
            assert ts[i] == CallTransform(evalCall(texts[i]).value, trig);
          }
        }
        Success(Compose(ts))
  }

  /** `parse(s)`: it raises when nothing but blanks lies between the `)`s,
      or when `eval` rejects one of the call texts. */
  function Parse(s: string, evalCall: string -> Option<Call>, trig: Trig): (r: Result<Transform, TransformError>)
    ensures r == Failure(NoTransforms) <==> AllBlank(Split(s, ')'))
    ensures r.Success? <==> !AllBlank(Split(s, ')')) && AllEvaluate(CallTexts(Split(s, ')')), evalCall)
    ensures r.Failure? && r.error.MalformedCall? ==>
      r.error.text in CallTexts(Split(s, ')')) && evalCall(r.error.text).None?
    ensures r.Success? ==> IsAffine(r.value)
  {
    var pieces := Split(s, ')');
    var texts := CallTexts(pieces);
    EvalAndCompose(texts, evalCall, trig)
  }

  // ---------------------------------------------------------------------
  // Properties of parsing

  /** Applying the calls one after another, the rightmost first. */
  function ApplyAll(ts: seq<Transform>, p: seq<real>): (r: seq<real>)
    requires |ts| > 0 && |p| >= 2
    ensures |r| >= 2
  {
    if |ts| == 1 then MultPoint(ts[0], p)
    else MultPoint(ts[0], ApplyAll(ts[1..], p))
  }

  lemma {:induction false} ApplyAllSnoc(ts: seq<Transform>, last: Transform, p: seq<real>)
    requires |ts| > 0 && |p| >= 2
    ensures ApplyAll(ts + [last], p) == ApplyAll(ts, MultPoint(last, p))
  {
    if |ts| > 1 {
      assert (ts + [last])[1..] == ts[1..] + [last];
      ApplyAllSnoc(ts[1..], last, p);
    }
  }

  /** The fold of affine calls applies them right to left. */
  lemma {:induction false} ComposeAppliesRightmostFirst(ts: seq<Transform>, p: seq<real>)
    requires |ts| > 0 && |p| >= 2
    requires forall i :: 0 <= i < |ts| ==> IsAffine(ts[i])
    ensures MultPoint(Compose(ts), p) == ApplyAll(ts, p)
  {
    if |ts| > 1 {
      var init, last := ts[..|ts| - 1], ts[|ts| - 1];
      MultAppliesRightFirst(Compose(init), last, p);
      ComposeAppliesRightmostFirst(init, MultPoint(last, p));
      ApplyAllSnoc(init, last, p);
      assert init + [last] == ts;
    }
  }

  /** Folding a concatenation multiplies the two folds (by associativity). */
  lemma {:induction false} ComposeAppend(a: seq<Transform>, b: seq<Transform>)
    requires |a| > 0 && |b| > 0
    ensures Compose(a + b) == Mult(Compose(a), Compose(b))
  {
    var ab := a + b;
    assert ab[..|ab| - 1] == a + b[..|b| - 1] || |b| == 1;
    if |b| == 1 {
      assert ab[..|ab| - 1] == a;
    } else {
      assert ab[..|ab| - 1] == a + b[..|b| - 1];
      ComposeAppend(a, b[..|b| - 1]);
      MultAssoc(Compose(a), Compose(b[..|b| - 1]), b[|b| - 1]);
    }
  }

  lemma {:induction false} CallTextsAppend(a: seq<string>, b: seq<string>)
    ensures CallTexts(a + b) == CallTexts(a) + CallTexts(b)
  {
    if |a| > 0 {
      assert (a + b)[1..] == a[1..] + b;
      CallTextsAppend(a[1..], b);
    } else {
      assert a + b == b;
    }
  }

  /** The `i`-th piece, when not blank, gives the call text right after
      those of the non-blank pieces before it: the texts are the non-blank
      pieces in order, each with its `)` back. */
  lemma CallTextsInPlace(pieces: seq<string>, i: nat)
    requires i < |pieces| && !IsBlank(pieces[i])
    ensures var r := CallTexts(pieces);
      NonBlankCount(pieces[..i]) < |r| && r[NonBlankCount(pieces[..i])] == pieces[i] + ")"
  {
    var front, back := pieces[..i], pieces[i..];
    assert pieces == front + back;
    CallTextsAppend(front, back);
    assert back[0] == pieces[i];
    assert CallTexts(back) == [pieces[i] + ")"] + CallTexts(back[1..]);
  }

  lemma EvalAllAppend(a: seq<string>, b: seq<string>, evalCall: string -> Option<Call>, trig: Trig)
    requires EvalAll(a, evalCall, trig).Success? && EvalAll(b, evalCall, trig).Success?
    ensures EvalAll(a + b, evalCall, trig) == Success(EvalAll(a, evalCall, trig).value + EvalAll(b, evalCall, trig).value)
  {
    var ab := a + b;
    forall i | 0 <= i < |ab|
      ensures evalCall(ab[i]).Some?
    {
      if i < |a| { assert ab[i] == a[i]; } else { assert ab[i] == b[i - |a|]; }
    }
    var r := EvalAll(ab, evalCall, trig);
    assert r.Success?;
    var expected := EvalAll(a, evalCall, trig).value + EvalAll(b, evalCall, trig).value;
    assert |r.value| == |expected|;
    forall i | 0 <= i < |ab|
      ensures r.value[i] == expected[i]
    {
      if i < |a| { assert ab[i] == a[i]; } else { assert ab[i] == b[i - |a|]; }
    }
    assert r.value == expected;
  }

  /** Evaluating and folding two call lists one after the other multiplies
      their folds. */
  lemma EvalAndComposeAppend(t1: seq<string>, t2: seq<string>, evalCall: string -> Option<Call>, trig: Trig)
    requires EvalAndCompose(t1, evalCall, trig).Success? && EvalAndCompose(t2, evalCall, trig).Success?
    ensures EvalAndCompose(t1 + t2, evalCall, trig)
         == Success(Mult(EvalAndCompose(t1, evalCall, trig).value, EvalAndCompose(t2, evalCall, trig).value))
  {
    EvalAllAppend(t1, t2, evalCall, trig);
    ComposeAppend(EvalAll(t1, evalCall, trig).value, EvalAll(t2, evalCall, trig).value);
  }

  /** A call text whose only `)` closes it parses to that one call. */
  lemma SplitSingleCall(body: string)
    requires ')' !in body
    ensures Split(body + ")", ')') == [body, ""]
  {
    SplitAround(body, "", ')');
    SplitWithoutSeparator(body, ')');
    assert body + [')'] + "" == body + ")";
  }

  /** A single call parses to the transform of that call. */
  lemma ParseSingleCall(body: string, evalCall: string -> Option<Call>, trig: Trig)
    requires ')' !in body && !IsBlank(body)
    requires evalCall(body + ")").Some?
    ensures Parse(body + ")", evalCall, trig) == Success(CallTransform(evalCall(body + ")").value, trig))
  {
    SplitSingleCall(body);
    var texts := CallTexts([body, ""]);
    assert [body, ""][1..] == [""];
    assert texts == [body + ")"];
  }

  /** Concatenating a complete call list `s1` with more calls `s2` parses to
      the product of the two parses. */
  lemma ParseConcat(s1: string, s2: string, evalCall: string -> Option<Call>, trig: Trig)
    requires |s1| > 0 && s1[|s1| - 1] == ')'
    requires Parse(s1, evalCall, trig).Success? && Parse(s2, evalCall, trig).Success?
    ensures Parse(s1 + s2, evalCall, trig) == Success(Mult(Parse(s1, evalCall, trig).value, Parse(s2, evalCall, trig).value))
  {
    CallTextsConcat(s1, s2);
    EvalAndComposeAppend(CallTexts(Split(s1, ')')), CallTexts(Split(s2, ')')), evalCall, trig);
  }

  /** After a complete call, the call texts of the rest simply follow. */
  lemma CallTextsConcat(s1: string, s2: string)
    requires |s1| > 0 && s1[|s1| - 1] == ')'
    ensures CallTexts(Split(s1 + s2, ')')) == CallTexts(Split(s1, ')')) + CallTexts(Split(s2, ')'))
  {
    var a := s1[..|s1| - 1];
    var pa := Split(a, ')');
    assert s1 == a + [')'] + "";
    assert s1 + s2 == a + [')'] + s2;
    SplitAround(a, "", ')');
    SplitAround(a, s2, ')');
    assert Split(s1, ')') == pa + [""];
    assert Split(s1 + s2, ')') == pa + Split(s2, ')');
    CallTextsAppend(pa, [""]);
    CallTextsAppend(pa, Split(s2, ')'));
    assert CallTexts([""]) == [];
    assert CallTexts(Split(s1, ')')) == CallTexts(pa);
  }

  /** Blanks after the last `)` are a blank piece, which is dropped: they
      change nothing, whether or not the rest parses. */
  lemma ParseIgnoresTrailingBlank(s: string, b: string, evalCall: string -> Option<Call>, trig: Trig)
    requires |s| > 0 && s[|s| - 1] == ')' && IsBlank(b)
    ensures Parse(s + b, evalCall, trig) == Parse(s, evalCall, trig)
  {
    assert ')' !in b by {
      forall i | 0 <= i < |b| ensures b[i] != ')' { assert IsSpace(b[i]); }
    }
    CallTextsConcat(s, b);
    SplitWithoutSeparator(b, ')');
    assert CallTexts([b]) == [];
    assert CallTexts(Split(s + b, ')')) == CallTexts(Split(s, ')'));
  }

  /** The rightmost call of a transform list is applied first. */
  lemma ParseAppliesRightmostFirst(s1: string, s2: string, evalCall: string -> Option<Call>, trig: Trig, p: seq<real>)
    requires |s1| > 0 && s1[|s1| - 1] == ')' && |p| >= 2
    requires Parse(s1, evalCall, trig).Success? && Parse(s2, evalCall, trig).Success?
    ensures Parse(s1 + s2, evalCall, trig).Success?
    ensures MultPoint(Parse(s1 + s2, evalCall, trig).value, p)
         == MultPoint(Parse(s1, evalCall, trig).value, MultPoint(Parse(s2, evalCall, trig).value, p))
  {
    ParseConcat(s1, s2, evalCall, trig);
    MultAppliesRightFirst(Parse(s1, evalCall, trig).value, Parse(s2, evalCall, trig).value, p);
  }

  lemma NotBlank(s: string, i: nat)
    requires i < |s| && !IsSpace(s[i])
    ensures !IsBlank(s)
  {
  }

  /** `__TestParse.testOneTranslate` in `transform.py`: one translate parses to itself. */
  lemma ParseOneTranslateTest(evalCall: string -> Option<Call>, trig: Trig)
    requires evalCall("translate(10,20)") == Some(TranslateCall(10.0, 20.0))
    ensures Parse("translate(10,20)", evalCall, trig) == Success(Translate(10.0, 20.0))
  {
    var body := "translate(10,20";
    assert body + ")" == "translate(10,20)";
    NotBlank(body, 0);
    ParseSingleCall(body, evalCall, trig);
  }

  /** Two calls in a row parse to the product of their transforms. */
  lemma ParseTwoCalls(b1: string, b2: string, evalCall: string -> Option<Call>, trig: Trig)
    requires ')' !in b1 && !IsBlank(b1) && evalCall(b1 + ")").Some?
    requires ')' !in b2 && !IsBlank(b2) && evalCall(b2 + ")").Some?
    ensures Parse(b1 + ")" + b2 + ")", evalCall, trig)
         == Success(Mult(CallTransform(evalCall(b1 + ")").value, trig), CallTransform(evalCall(b2 + ")").value, trig)))
  {
    ParseSingleCall(b1, evalCall, trig);
    ParseSingleCall(b2, evalCall, trig);
    assert b1 + ")" + b2 + ")" == (b1 + ")") + (b2 + ")");
    ParseConcat(b1 + ")", b2 + ")", evalCall, trig);
  }

  /** `__TestParse.testTranslateTranslate` in `transform.py`: two translates parse to their sum. */
  lemma ParseTwoTranslatesTest(s: string, evalCall: string -> Option<Call>, trig: Trig)
    requires s == "translate(10,0) translate(0,20)"
    requires evalCall("translate(10,0)") == Some(TranslateCall(10.0, 0.0))
    requires evalCall(" translate(0,20)") == Some(TranslateCall(0.0, 20.0))
    ensures Parse(s, evalCall, trig) == Success(Translate(10.0, 20.0))
  {
    var b1, b2 := "translate(10,0", " translate(0,20";
    assert b1 + ")" == "translate(10,0)";
    assert b2 + ")" == " translate(0,20)";
    assert s == b1 + ")" + b2 + ")";
    NotBlank(b1, 0);
    NotBlank(b2, 1);
    ParseTwoCalls(b1, b2, evalCall, trig);
    TranslateCompose(10.0, 0.0, 0.0, 20.0);
  }
}
