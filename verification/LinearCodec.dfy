/** The linear group codec over the reals, and the error of the two-stage full-tensor path. */
module LinearCodecs {
  import opened Sequences
  import opened Codecs
  import opened Executors
  import opened Collectives
  import Shards

  function Abs(x: real): real {
    if x < 0.0 then -x else x
  }

  function MaxAbs(v: seq<real>): real {
    if v == [] then 0.0
    else
      var rest := MaxAbs(v[..|v| - 1]);
      var last := Abs(v[|v| - 1]);
      if last > rest then last else rest
  }

  const MIN_SCALE: real := 0.000001

  /** The stored scale: the largest magnitude, kept away from zero. */
  function Scale(v: seq<real>): real {
    if MaxAbs(v) > MIN_SCALE then MaxAbs(v) else MIN_SCALE
  }

  /** Round to the nearest integer, ties to even. */
  function Round(x: real): int {
    var low := x.Floor;
    var rest := x - low as real;
    if rest < 0.5 then low
    else if rest > 0.5 then low + 1
    else if low % 2 == 0 then low
    else low + 1
  }

  function Clamp(q: int): int {
    if q < -127 then -127 else if q > 127 then 127 else q
  }

  function Quantize(x: real, scale: real): int
    requires scale > 0.0
  {
    Clamp(Round(x * (127.0 / scale)))
  }

  /** The value that code `q` stands for. */
  function Restore(q: int, scale: real): real {
    q as real * (scale / 127.0)
  }

  /** One byte per value; the scale occupies the cells after them. */
  datatype Cell = Code(q: int) | ScaleWord(scale: real) | Blank

  function Codes(v: seq<real>): seq<Cell> {
    seq(|v|, i requires 0 <= i < |v| => Code(Quantize(v[i], Scale(v))))
  }

  function DecodeCells(g: nat, values: seq<Cell>, scale: seq<Cell>): (v: seq<real>)
    ensures |v| == g
  {
    var s := if |scale| > 0 && scale[0].ScaleWord? then scale[0].scale else 0.0;
    seq(g, i requires 0 <= i < g =>
      Restore(if i < |values| && values[i].Code? then values[i].q else 0, s))
  }

  /** The INT8 linear codec for groups of `g` and an element type. */
  function Linear(g: nat, dtype: DataType): (c: Codec<Cell>)
  {
    Codec(
      g, g, ScaleBytes(dtype),
      v => Codes(v),
      v => [ScaleWord(Scale(v))] + seq(ScaleBytes(dtype) - 1, _ => Blank),
      (values, scale) => DecodeCells(g, values, scale))
  }

  lemma LinearFits(wire: QuantizedWire, dtype: DataType)
    requires wire.Valid() && wire.bit == 8
    ensures Linear(wire.groupSize, dtype).Fits(wire, dtype)
  {
  }

  // ---------------------------------------------------------------------------
  // One element.

  lemma RoundNearest(x: real)
    ensures Abs(Round(x) as real - x) <= 0.5
  {
  }

  lemma RoundStaysWithin(x: real)
    requires Abs(x) <= 127.0
    ensures Clamp(Round(x)) == Round(x) && Abs(Round(x) as real) <= 127.0
  {
  }

  lemma MaxAbsBounds(v: seq<real>, i: nat)
    requires i < |v|
    ensures Abs(v[i]) <= MaxAbs(v)
  {
    if i < |v| - 1 {
      MaxAbsBounds(v[..|v| - 1], i);
    }
  }

  lemma {:induction false} MaxAbsLeast(v: seq<real>, bound: real)
    requires 0.0 <= bound && forall i :: 0 <= i < |v| ==> Abs(v[i]) <= bound
    ensures MaxAbs(v) <= bound
  {
    if v != [] {
      MaxAbsLeast(v[..|v| - 1], bound);
    }
  }

  lemma ScaledBack(x: real, s: real)
    requires s > 0.0
    ensures (x * (127.0 / s)) * (s / 127.0) == x
  {
    var k := 127.0 / s;
    var b := s / 127.0;
    assert k * s == 127.0;
    assert b * 127.0 == s;
    assert k * b == 1.0 by {
      assert (k * b) * 127.0 == k * (b * 127.0);
    }
    assert (x * k) * b == x * (k * b);
  }

  lemma AbsScaled(d: real, u: real, k: real)
    requires k > 0.0 && Abs(d) <= u
    ensures Abs(d * k) <= u * k
  {
    if d < 0.0 {
      assert d * k <= 0.0;
      assert -(d * k) == (-d) * k;
      assert (-d) * k <= u * k;
    } else {
      assert d * k <= u * k;
    }
  }

  lemma ScaledWithin(d: real, u: real, k: real, product: real)
    requires k > 0.0 && Abs(d) <= u && product == d * k
    ensures Abs(product) <= u * k
  {
    AbsScaled(d, u, k);
  }

  lemma Spread(a: real, b: real, k: real)
    ensures (a - b) * k == a * k - b * k
  {
  }

  lemma CodeError(x: real, y: real, q: real, step: real)
    requires step > 0.0 && y * step == x && Abs(q - y) <= 0.5 && Abs(q) <= 127.0
    ensures Abs(q * step - x) <= 0.5 * step
    ensures Abs(q * step) <= 127.0 * step
  {
    Spread(q, y, step);
    ScaledWithin(q - y, 0.5, step, q * step - x);
    AbsScaled(q, 127.0, step);
  }

  lemma NormalizedSize(x: real, s: real)
    requires s > 0.0 && Abs(x) <= s
    ensures Abs(x * (127.0 / s)) <= 127.0
  {
    var k := 127.0 / s;
    assert s * k == 127.0;
    assert k > 0.0;
    AbsScaled(x, s, k);
  }

  /** A value no larger than the scale is restored to within half a step, and not beyond the scale. */
  lemma {:induction false} ElementError(x: real, s: real)
    requires s > 0.0 && Abs(x) <= s
    ensures Abs(Restore(Quantize(x, s), s) - x) <= s / 254.0
    ensures Abs(Restore(Quantize(x, s), s)) <= s
  {
    hide Abs, Round, Clamp, Restore;
    NormalizedSize(x, s);
    RoundStaysWithin(x * (127.0 / s));
    RoundNearest(x * (127.0 / s));
    ScaledBack(x, s);
    CodedWithin(x, x * (127.0 / s), Round(x * (127.0 / s)), s);
  }

  lemma CodedWithin(x: real, y: real, q: int, s: real)
    requires s > 0.0 && y * (s / 127.0) == x && Abs(q as real - y) <= 0.5 && Abs(q as real) <= 127.0
    ensures Abs(Restore(q, s) - x) <= s / 254.0
    ensures Abs(Restore(q, s)) <= s
  {
    CodeError(x, y, q as real, s / 127.0);
  }

  lemma {:induction false} LinearImage(g: nat, dtype: DataType, v: seq<real>, e: nat)
    requires |v| == g && e < g
    ensures |Linear(g, dtype).GroupImage(v)| == g
    ensures Linear(g, dtype).GroupImage(v)[e] == Restore(Quantize(v[e], Scale(v)), Scale(v))
  {
    hide Quantize, Restore;
    var c := Linear(g, dtype);
    var values, scale := c.EncodedValues(v), c.EncodedScale(v);
    assert values == Codes(v) && values[e] == Code(Quantize(v[e], Scale(v)));
    assert scale[0] == ScaleWord(Scale(v));
    assert c.GroupImage(v) == DecodeCells(g, values, scale);
  }

  // ---------------------------------------------------------------------------
  // Which code a value gets.

  /** `q` is the nearest integer, and of two nearest ones the even one. */
  lemma RoundIff(x: real, q: int)
    ensures Round(x) == q
       <==> (-0.5 < q as real - x < 0.5) || ((q as real - x == 0.5 || x - q as real == 0.5) && q % 2 == 0)
    ensures Round(x) == q
       <==> Abs(q as real - x) < 0.5 || (Abs(q as real - x) == 0.5 && q % 2 == 0)
  {
    var low := x.Floor;
    if q <= low - 1 {
      assert x - q as real >= 1.0;
    } else if q >= low + 2 {
      assert q as real - x > 0.5;
    }
  }

  /** The largest magnitude of a group. */
  ghost predicate IsLargest(v: seq<real>, largest: real) {
    && (forall i :: 0 <= i < |v| ==> v[i] <= largest && -v[i] <= largest)
    && exists i :: 0 <= i < |v| && (v[i] == largest || -v[i] == largest)
  }

  lemma {:induction false} LargestIsMaxAbs(v: seq<real>, largest: real)
    requires IsLargest(v, largest)
    ensures MaxAbs(v) == largest
  {
    var i :| 0 <= i < |v| && (v[i] == largest || -v[i] == largest);
    MaxAbsBounds(v, i);
    assert largest >= 0.0;
    MaxAbsLeast(v, largest);
  }

  lemma ScaleUp(q: real, y: real, x: real, s: real)
    requires s > 0.0 && y * (s / 127.0) == x
    ensures Abs(q - y) < 0.5 <==> Abs(q * s - 127.0 * x) < s / 2.0
    ensures Abs(q - y) == 0.5 <==> Abs(q * s - 127.0 * x) == s / 2.0
  {
    ScaledAbs(q, y, x, s);
    hide Abs;
    HalfStep(Abs(q - y), Abs(q * s - 127.0 * x), s);
  }

  lemma ScaledAbs(q: real, y: real, x: real, s: real)
    requires s > 0.0 && y * (s / 127.0) == x
    ensures Abs(q * s - 127.0 * x) == Abs(q - y) * s
  {
    TimesScale(y, x, s);
    Spread(q, y, s);
    AbsTimes(q - y, s);
    hide Abs;
    assert q * s - 127.0 * x == (q - y) * s;
  }

  lemma HalfStep(z: real, w: real, s: real)
    requires s > 0.0 && w == z * s
    ensures z < 0.5 <==> w < s / 2.0
    ensures z == 0.5 <==> w == s / 2.0
  {
    Ordered(z, 0.5, s);
    assert 0.5 * s == s / 2.0;
  }

  lemma TimesScale(y: real, x: real, s: real)
    requires y * (s / 127.0) == x
    ensures y * s == 127.0 * x
  {
    var step := s / 127.0;
    assert step * 127.0 == s;
    assert 127.0 * (y * step) == y * (step * 127.0);
  }

  lemma AbsTimes(d: real, k: real)
    requires k > 0.0
    ensures Abs(d * k) == Abs(d) * k
  {
    Signs(d, k);
    assert (-d) * k == -(d * k);
  }

  lemma Signs(d: real, k: real)
    requires k > 0.0
    ensures d > 0.0 <==> d * k > 0.0
    ensures d == 0.0 <==> d * k == 0.0
  {
  }

  lemma Ordered(a: real, b: real, k: real)
    requires k > 0.0
    ensures a < b <==> a * k < b * k
    ensures a == b <==> a * k == b * k
  {
    Spread(b, a, k);
    Signs(b - a, k);
  }

  /** 127 times `x` is nearest to `q` times the scale, or in the middle between two multiples and `q` is even. */
  ghost predicate IsNearest(q: int, x: real, s: real) {
    var d := q as real * s - 127.0 * x;
    (-(s / 2.0) < d < s / 2.0) || ((d == s / 2.0 || d == -(s / 2.0)) && q % 2 == 0)
  }

  lemma NearestIs(q: int, x: real, s: real)
    requires s > 0.0
    ensures IsNearest(q, x, s)
       <==> Abs(q as real * s - 127.0 * x) < s / 2.0
            || (Abs(q as real * s - 127.0 * x) == s / 2.0 && q % 2 == 0)
  {
  }

  ghost predicate StandsFor(q: int, s: real, x: real) {
    x == q as real * (s / 127.0)
  }

  /** A value no larger than the scale gets code `q` exactly if 127 times the value is nearest to `q` times the scale,
      and at the middle between two codes the even one; no code is clamped. */
  lemma {:induction false} CodeIff(x: real, s: real, q: int)
    requires s > 0.0 && Abs(x) <= s
    ensures Quantize(x, s) == q <==> IsNearest(q, x, s)
    ensures -127 <= Quantize(x, s) <= 127
  {
    hide Abs, Round, Clamp;
    var y := x * (127.0 / s);
    NormalizedSize(x, s);
    RoundStaysWithin(y);
    RoundIff(y, q);
    ScaledBack(x, s);
    ScaleUp(q as real, y, x, s);
    NearestIs(q, x, s);
    hide IsNearest;
    ClampRange(Round(y));
  }

  lemma ClampRange(q: int)
    ensures -127 <= Clamp(q) <= 127
  {
  }

  /** The codes of a group, its stored scale, and what they stand for: the scale is the largest magnitude, but at least
      1e-6; the code of an element is the integer nearest to 127 times the element over the scale, ties to even; and
      a code `q` is restored to `q` times the scale over 127. */
  lemma {:induction false} GroupCodes(g: nat, dtype: DataType, v: seq<real>, largest: real, e: nat, q: int)
    requires |v| == g && e < g && IsLargest(v, largest)
    ensures var c, s := Linear(g, dtype), if largest > 0.000001 then largest else 0.000001;
            && |c.EncodedValues(v)| == g && |c.EncodedScale(v)| == (if dtype == FP32 then 4 else 2)
            && c.EncodedScale(v)[0] == ScaleWord(s)
            && (c.EncodedValues(v)[e] == Code(q) <==> IsNearest(q, v[e], s))
            && (c.EncodedValues(v)[e] == Code(q) ==> |c.GroupImage(v)| == g && StandsFor(q, s, c.GroupImage(v)[e]))
  {
    var s := Scale(v);
    LargestIsMaxAbs(v, largest);
    MaxAbsBounds(v, e);
    EncodedParts(g, dtype, v, e);
    LinearImage(g, dtype, v, e);
    hide Quantize, Abs, Linear, Codec.EncodedValues, Codec.EncodedScale, Codec.GroupImage, MaxAbs, IsLargest, Restore,
         IsNearest, StandsFor;
    CodeIff(v[e], s, q);
    RestoreIs(q, s);
  }

  lemma RestoreIs(q: int, s: real)
    ensures StandsFor(q, s, Restore(q, s))
  {
  }

  lemma EncodedParts(g: nat, dtype: DataType, v: seq<real>, e: nat)
    requires |v| == g && e < g
    ensures var c := Linear(g, dtype);
            && |c.EncodedValues(v)| == g && c.EncodedValues(v)[e] == Code(Quantize(v[e], Scale(v)))
            && |c.EncodedScale(v)| == (if dtype == FP32 then 4 else 2) && c.EncodedScale(v)[0] == ScaleWord(Scale(v))
  {
    hide Quantize, Scale;
    assert Linear(g, dtype).EncodedValues(v) == Codes(v);
  }

  /** What the codec does to element `e` of a group. */
  lemma {:induction false} GroupError(g: nat, dtype: DataType, v: seq<real>, e: nat)
    requires g > 0 && |v| == g && e < g
    ensures var image := Linear(g, dtype).GroupImage(v);
            && |image| == g
            && Abs(image[e] - v[e]) <= Scale(v) / 254.0
            && Abs(image[e]) <= Scale(v)
  {
    hide Quantize, Restore, Linear;
    MaxAbsBounds(v, e);
    LinearImage(g, dtype, v, e);
    ElementError(v[e], Scale(v));
  }

  /** Element `e` of group `i` of a whole buffer. */
  lemma {:induction false} BufferError(g: nat, dtype: DataType, v: seq<real>, n: nat, i: nat, e: nat)
    requires g > 0 && |v| == n * g && i < n && e < g
    ensures var image := Image(Linear(g, dtype), v, n);
            && |image| == |v| && 0 <= i * g + e < |v|
            && Abs(image[i * g + e] - v[i * g + e]) <= Scale(Block(v, g, n, i)) / 254.0
            && Abs(image[i * g + e]) <= Scale(Block(v, g, n, i))
  {
    ImageAt(Linear(g, dtype), v, n, i, e);
    GroupError(g, dtype, Block(v, g, n, i), e);
    MulStep(i, n, g);
  }

  // ---------------------------------------------------------------------------
  // The two-stage bound.

  /** The mean over the ranks of the scale of group `i`. */
  function MeanScale(ps: seq<seq<real>>, g: nat, n: nat, i: nat): real
    requires |ps| > 0 && Uniform(ps, n * g) && i < n
  {
    Average(Sum(Scales(ps, g, n, i)), |ps|)
  }

  function Scales(ps: seq<seq<real>>, g: nat, n: nat, i: nat): (scales: seq<real>)
    requires Uniform(ps, n * g) && i < n
    ensures |scales| == |ps| && forall s :: 0 <= s < |ps| ==> scales[s] == Scale(Block(ps[s], g, n, i))
  {
    seq(|ps|, s requires 0 <= s < |ps| => Scale(Block(ps[s], g, n, i)))
  }

  lemma {:induction false} SumScaled(a: seq<real>, b: seq<real>, k: real)
    requires k > 0.0
    requires |a| == |b| && forall i :: 0 <= i < |a| ==> b[i] == a[i] / k
    ensures Sum(b) == Sum(a) / k
    decreases |a|
  {
    if |a| > 0 {
      SumScaled(a[..|a| - 1], b[..|a| - 1], k);
    }
  }

  /** A sum of values each within its own tolerance is within the sum of the tolerances. */
  lemma {:induction false} SumWithin(a: seq<real>, b: seq<real>, u: seq<real>)
    requires |a| == |b| == |u|
    requires forall i :: 0 <= i < |a| ==> Abs(a[i] - b[i]) <= u[i]
    ensures Abs(Sum(a) - Sum(b)) <= Sum(u)
    decreases |a|
  {
    if |a| > 0 {
      var n := |a| - 1;
      SumWithin(a[..n], b[..n], u[..n]);
    }
  }

  lemma AverageWithin(a: real, b: real, u: real, w: nat)
    requires w > 0 && Abs(a - b) <= u
    ensures Abs(Average(a, w) - Average(b, w)) <= Average(u, w)
  {
    var k := 1.0 / (w as real);
    AbsScaled(a - b, u, k);
    assert Average(a, w) == a * k && Average(b, w) == b * k && Average(u, w) == u * k;
    assert (a - b) * k == a * k - b * k;
  }

  lemma AverageScaled(u: real, k: real, w: nat)
    requires w > 0 && k > 0.0
    ensures Average(u / k, w) == Average(u, w) / k
  {
    var a, b := 1.0 / (w as real), 1.0 / k;
    assert (u * b) * a == (u * a) * b;
  }

  lemma AverageOfZero(w: nat)
    requires w > 0
    ensures Average(0.0, w) == 0.0
  {
  }

  lemma AverageAtLeast(a: real, low: real, w: nat)
    requires w > 0 && a >= low * (w as real)
    ensures Average(a, w) >= low
  {
    assert (Average(a, w) - low) * (w as real) == a - low * (w as real);
  }

  /** The mean of the images against the mean of the values. */
  lemma {:induction false} MeanError(
    ps: seq<seq<real>>, images: seq<seq<real>>, g: nat, dtype: DataType, n: nat, i: nat, e: nat)
    requires g > 0 && |ps| == |images| > 0 && i < n && e < g
    requires Uniform(ps, n * g) && Uniform(images, n * g)
    requires forall s :: 0 <= s < |ps| ==> images[s] == Image(Linear(g, dtype), ps[s], n)
    ensures 0 <= i * g + e < n * g
    ensures Abs(MeanOf(images, n * g)[i * g + e] - MeanOf(ps, n * g)[i * g + e]) <= MeanScale(ps, g, n, i) / 254.0
  {
    hide Abs, Average, Image, Linear, Scale, Sum;
    MulStep(i, n, g);
    var k := i * g + e;
    var a, b := Column(images, n * g, k), Column(ps, n * g, k);
    var scales := Scales(ps, g, n, i);
    var tolerances := seq(|ps|, s requires 0 <= s < |ps| => scales[s] / 254.0);
    forall s | 0 <= s < |ps|
      ensures Abs(a[s] - b[s]) <= tolerances[s]
    {
      BufferError(g, dtype, ps[s], n, i, e);
    }
    SumWithin(a, b, tolerances);
    SumScaled(scales, tolerances, 254.0);
    AverageWithin(Sum(a), Sum(b), Sum(scales) / 254.0, |ps|);
    AverageScaled(Sum(scales), 254.0, |ps|);
  }

  /** The mean of the images is no larger than the mean scale. */
  lemma {:induction false} MeanSize(
    ps: seq<seq<real>>, images: seq<seq<real>>, g: nat, dtype: DataType, n: nat, i: nat, e: nat)
    requires g > 0 && |ps| == |images| > 0 && i < n && e < g
    requires Uniform(ps, n * g) && Uniform(images, n * g)
    requires forall s :: 0 <= s < |ps| ==> images[s] == Image(Linear(g, dtype), ps[s], n)
    ensures 0 <= i * g + e < n * g
    ensures Abs(MeanOf(images, n * g)[i * g + e]) <= MeanScale(ps, g, n, i)
  {
    hide Abs, Average, Image, Linear, Scale, Sum;
    MulStep(i, n, g);
    var a := Column(images, n * g, i * g + e);
    var scales, zeros := Scales(ps, g, n, i), Zeros(|ps|);
    forall s | 0 <= s < |ps|
      ensures Abs(a[s] - zeros[s]) <= scales[s]
    {
      BufferError(g, dtype, ps[s], n, i, e);
    }
    SumWithin(a, zeros, scales);
    SumZero(zeros);
    AverageWithin(Sum(a), 0.0, Sum(scales), |ps|);
    AverageOfZero(|ps|);
  }

  lemma {:induction false} MeanScaleAtLeastMin(ps: seq<seq<real>>, g: nat, n: nat, i: nat)
    requires |ps| > 0 && Uniform(ps, n * g) && i < n
    ensures MeanScale(ps, g, n, i) >= MIN_SCALE
  {
    SumAtLeast(Scales(ps, g, n, i), MIN_SCALE);
    AverageAtLeast(Sum(Scales(ps, g, n, i)), MIN_SCALE, |ps|);
  }

  lemma {:induction false} SumAtLeast(s: seq<real>, low: real)
    requires forall i :: 0 <= i < |s| ==> s[i] >= low
    ensures Sum(s) >= low * (|s| as real)
    decreases |s|
  {
    if |s| > 0 {
      SumAtLeast(s[..|s| - 1], low);
      assert low * (|s| as real) == low * ((|s| - 1) as real) + low;
    }
  }

  /** The scale of a reduced group is no larger than the mean scale of the groups it averages. */
  lemma {:induction false} ReducedScale(
    ps: seq<seq<real>>, images: seq<seq<real>>, g: nat, dtype: DataType, n: nat, i: nat)
    requires g > 0 && |ps| == |images| > 0 && i < n
    requires Uniform(ps, n * g) && Uniform(images, n * g)
    requires forall s :: 0 <= s < |ps| ==> images[s] == Image(Linear(g, dtype), ps[s], n)
    ensures Scale(Block(MeanOf(images, n * g), g, n, i)) <= MeanScale(ps, g, n, i)
  {
    MeanScaleAtLeastMin(ps, g, n, i);
    var group := Block(MeanOf(images, n * g), g, n, i);
    forall f | 0 <= f < g
      ensures Abs(group[f]) <= MeanScale(ps, g, n, i)
    {
      MeanSize(ps, images, g, dtype, n, i, f);
      MulStep(i, n, g);
    }
    MaxAbsLeast(group, MeanScale(ps, g, n, i));
  }

  lemma AbsTriangle(a: real, b: real, c: real)
    ensures Abs(a - c) <= Abs(a - b) + Abs(b - c)
  {
  }

  /** Two-stage bound: element `e` of group `i` of the full-tensor result is within the mean scale of
      that group over 254 for the first stage, plus the scale of the reduced group over 254 for the
      second, of the true mean; in terms of the inputs alone, within the mean scale over 127. */
  lemma {:induction false} TwoStageError(
    ex: Exchange<Cell>, dtype: DataType, xs: seq<seq<real>>, ps: seq<seq<real>>, i: nat, e: nat)
    requires ex.codec == Linear(ex.codec.groupSize, dtype) && ex.Valid() && |xs| == |ps| == ex.world
    requires forall s :: 0 <= s < |xs| ==> |xs[s]| <= ex.Padded() && ps[s] == Pad(xs[s], ex.Padded())
    requires i < ex.world * ex.groups && e < ex.codec.groupSize
    ensures ex.Padded() == (ex.world * ex.groups) * ex.codec.groupSize
    ensures Uniform(ps, ex.Padded())
    ensures var g, n := ex.codec.groupSize, ex.world * ex.groups;
            var reduced := ReducedTensor(ex, xs);
            var result := Image(ex.codec, reduced, n);
            var k := i * g + e;
            && 0 <= k < |result| == |reduced| == ex.Padded()
            && Abs(reduced[k] - MeanOf(ps, ex.Padded())[k]) <= MeanScale(ps, g, n, i) / 254.0
            && Abs(result[k] - reduced[k]) <= Scale(Block(reduced, g, n, i)) / 254.0
            && Scale(Block(reduced, g, n, i)) <= MeanScale(ps, g, n, i)
            && Abs(result[k] - MeanOf(ps, ex.Padded())[k]) <= MeanScale(ps, g, n, i) / 127.0
  {
    hide Abs, Average, Image, Linear, Scale, Sum;
    var g, n := ex.codec.groupSize, ex.world * ex.groups;
    Regroup(ex.world, ex.groups, g);
    var images := Contributions(ex, xs);
    var reduced := ReducedTensor(ex, xs);
    MeanError(ps, images, g, dtype, n, i, e);
    BufferError(g, dtype, reduced, n, i, e);
    ReducedScale(ps, images, g, dtype, n, i);
    var k := i * g + e;
    AbsTriangle(Image(ex.codec, reduced, n)[k], reduced[k], MeanOf(ps, ex.Padded())[k]);
  }

  function PaddedInputs<B(!new)>(ex: Exchange<B>, xs: seq<seq<real>>): (ps: seq<seq<real>>)
    requires forall s :: 0 <= s < |xs| ==> |xs[s]| <= ex.Padded()
    ensures |ps| == |xs| && Uniform(ps, ex.Padded())
  {
    seq(|xs|, s requires 0 <= s < |xs| => Pad(xs[s], ex.Padded()))
  }

  /** Padding does not change the mean of the elements that were there. */
  lemma {:induction false} MeanOfPadded<B(!new)>(ex: Exchange<B>, xs: seq<seq<real>>, numel: nat, k: nat)
    requires |xs| > 0 && Uniform(xs, numel) && k < numel <= ex.Padded()
    ensures MeanOf(PaddedInputs(ex, xs), ex.Padded())[k] == MeanOf(xs, numel)[k]
  {
    assert Column(PaddedInputs(ex, xs), ex.Padded(), k) == Column(xs, numel, k);
  }

  /** The same bound for what a rank returns: every element of the trimmed result is within the mean scale
      of its group over 127 of the elementwise mean of the inputs, for any number of ranks. */
  lemma {:induction false} ResultError(ex: Exchange<Cell>, dtype: DataType, xs: seq<seq<real>>, numel: nat, k: nat)
    requires ex.codec == Linear(ex.codec.groupSize, dtype) && ex.Valid() && |xs| == ex.world
    requires Uniform(xs, numel) && k < numel <= ex.Padded()
    ensures var g, n := ex.codec.groupSize, ex.world * ex.groups;
            && ex.Padded() == n * g && |ReducedTensor(ex, xs)| == n * g
            && |Image(ex.codec, ReducedTensor(ex, xs), n)| == ex.Padded()
            && 0 <= k / g < n
            && Abs(Image(ex.codec, ReducedTensor(ex, xs), n)[..numel][k] - MeanOf(xs, numel)[k])
               <= MeanScale(PaddedInputs(ex, xs), g, n, k / g) / 127.0
  {
    hide Abs, Image, Linear, Scale, Sum, MeanScale, MeanOf, ReducedTensor, Contributions;
    var g, n := ex.codec.groupSize, ex.world * ex.groups;
    Regroup(ex.world, ex.groups, g);
    Shards.DivisionBounds(k, g);
    Shards.BlockIndexBound(k / g, g, k, n);
    MeanOfPadded(ex, xs, numel, k);
    TwoStageError(ex, dtype, xs, PaddedInputs(ex, xs), k / g, k - (k / g) * g);
  }
}
