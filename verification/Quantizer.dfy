/** The reference weight encoders, in exact real arithmetic: inputs and stored scales are reals, so what is
    proved is the error of the rounding itself. */
module Quantizer {
  import opened Results

  function Abs(x: real): real { if x < 0.0 then -x else x }

  /** Nearest integer, halves away from zero. */
  function Round(x: real): int {
    if x >= 0.0 then (x + 0.5).Floor else -((-x + 0.5).Floor)
  }

  function Clamp(k: int, low: int, high: int): int {
    if k < low then low else if k > high then high else k
  }

  lemma RoundNear(x: real)
    ensures -0.5 <= Round(x) as real - x <= 0.5
    ensures Round(-x) == -Round(x)
  {
  }

  /** Halves go away from zero. */
  lemma RoundTies(n: nat)
    ensures Round(n as real + 0.5) == n + 1 && Round(-(n as real) - 0.5) == -(n + 1)
  {
  }

  /** No integer in the range is nearer to x than the clamped rounding r. */
  lemma ClampNearest(r: int, x: real, low: int, high: int, k: int)
    requires low <= k <= high && -0.5 <= r as real - x <= 0.5
    ensures Abs(Clamp(r, low, high) as real - x) <= Abs(k as real - x)
  {
    if r < low || r > high {
    } else if k < r {
      assert (k + 1) as real <= r as real;
    } else if k > r {
      assert (k - 1) as real >= r as real;
    }
  }

  /** A code, or any other ratio, times its scale. */
  function Scaled(s: real, x: real): real { s * x }

  lemma ScaledMonotone(s: real, a: real, b: real)
    requires s >= 0.0
    ensures a <= b ==> Scaled(s, a) <= Scaled(s, b)
  {
  }

  lemma ScaledStrict(s: real, a: real, b: real)
    requires s > 0.0
    ensures a < b ==> Scaled(s, a) < Scaled(s, b)
  {
  }

  lemma ScaledDifference(s: real, a: real, b: real)
    ensures Scaled(s, a - b) == Scaled(s, a) - Scaled(s, b)
  {
  }

  lemma ScaledConstants(s: real)
    ensures Scaled(s, 0.5) == s / 2.0 && Scaled(s, -0.5) == -(s / 2.0)
    ensures Scaled(s, 127.0) == 127.0 * s && Scaled(s, -127.0) == -(127.0 * s) && Scaled(s, 0.0) == 0.0
  {
  }

  /** Multiplying back a quotient. */
  lemma ScaledQuotient(v: real, s: real)
    requires s > 0.0
    ensures Scaled(s, v / s) == v
    ensures v == 0.0 ==> v / s == 0.0
  {
  }

  // ---------------------------------------------------------------- symmetric 8-bit rows

  // Binary16 conversion overflows to infinity from here on.
  const F16_OVERFLOW: real := 65520.0

  datatype Error = EmptyRow | BadLength | ScaleTooLarge
  datatype Row = Row(codes: seq<int>, scale: real)

  /** The largest magnitude, 0 for an empty row. */
  function Peak(x: seq<real>): (p: real)
    ensures p >= 0.0 && forall i :: 0 <= i < |x| ==> Abs(x[i]) <= p
    ensures p == 0.0 || exists i :: 0 <= i < |x| && Abs(x[i]) == p
  {
    if x == [] then 0.0
    else
      var p := Peak(x[..|x| - 1]);
      if Abs(x[|x| - 1]) > p then Abs(x[|x| - 1]) else p
  }

  function Code(v: real, s: real): int
    requires s > 0.0
  {
    CodeOf(v / s)
  }

  function CodeOf(y: real): int { Clamp(Round(y), -127, 127) }

  function Codes(x: seq<real>, s: real): (q: seq<int>)
    requires s > 0.0
    ensures |q| == |x|
  {
    seq(|x|, i requires 0 <= i < |x| => Code(x[i], s))
  }

  function EncodedRow(x: seq<real>): Result<Row, Error> {
    var p := Peak(x);
    if p == 0.0 then Ok(Row(seq(|x|, _ => 0), 0.0))
    else if p / 127.0 >= F16_OVERFLOW then Err(ScaleTooLarge)
    else Ok(Row(Codes(x, p / 127.0), p / 127.0))
  }

  function Decode(r: Row): (x: seq<real>)
    ensures |x| == |r.codes|
  {
    seq(|r.codes|, i requires 0 <= i < |r.codes| => Scaled(r.scale, r.codes[i] as real))
  }

  method EncodeRow(x: seq<real>) returns (r: Result<Row, Error>)
    ensures r == if x == [] then Err(EmptyRow) else EncodedRow(x)
    ensures r.Ok? ==> Encodes(r.value, x) && LeastScale(r.value.scale, x)
    ensures r == Err(ScaleTooLarge) <==> exists i :: 0 <= i < |x| && Abs(x[i]) >= 8321040.0
  {
    if x == [] { return Err(EmptyRow); }
    var peak := FindPeak(x);
    EncodedRowEncodes(x);
    EncodedRowScale(x);
    if peak == 0.0 {
      return Ok(Row(seq(|x|, _ => 0), 0.0));
    }
    var s := peak / 127.0;
    if s >= F16_OVERFLOW { return Err(ScaleTooLarge); }
    var q := PushCodes(x, s);
    r := Ok(Row(q, s));
  }

  method PushCodes(x: seq<real>, s: real) returns (q: seq<int>)
    requires s > 0.0
    ensures q == Codes(x, s)
  {
    q := [];
    for i := 0 to |x|
      invariant |q| == i && forall k :: 0 <= k < i ==> q[k] == Codes(x, s)[k]
    {
      q := q + [Code(x[i], s)];
    }
  }

  method FindPeak(x: seq<real>) returns (peak: real)
    ensures peak == Peak(x)
  {
    peak := 0.0;
    for i := 0 to |x|
      invariant peak == Peak(x[..i])
    {
      assert x[..i + 1][..i] == x[..i];
      var a := Abs(x[i]);
      if a > peak { peak := a; }
    }
    assert x[..|x|] == x;
  }

  /** The ratio of a value to the scale is within the code range. */
  ghost predicate InRange(v: real, s: real) {
    s > 0.0 && -127.0 <= v / s <= 127.0
  }

  lemma PeakInRange(v: real, s: real)
    requires s > 0.0 && -(127.0 * s) <= v <= 127.0 * s
    ensures InRange(v, s)
  {
    ScaledQuotient(v, s);
    ScaledConstants(s);
    ScaledStrict(s, 127.0, v / s);
    ScaledStrict(s, v / s, -127.0);
  }

  lemma CodeNear(c: int, y: real)
    requires c == CodeOf(y) && -127.0 <= y <= 127.0
    ensures -0.5 <= c as real - y <= 0.5 && (y == 0.0 ==> c == 0)
  {
    RoundNear(y);
  }

  /** Half a code step either way. */
  lemma HalfStep(s: real, c: real, y: real)
    requires s > 0.0 && -0.5 <= c - y <= 0.5
    ensures -(s / 2.0) <= Scaled(s, c) - Scaled(s, y) <= s / 2.0
  {
    ScaledDifference(s, c, y);
    ScaledConstants(s);
    ScaledMonotone(s, c - y, 0.5);
    ScaledMonotone(s, -0.5, c - y);
  }

  lemma CodeNearest(c: int, y: real, k: int)
    requires c == CodeOf(y) && -127.0 <= y <= 127.0 && -127 <= k <= 127
    ensures Abs(c as real - y) <= Abs(k as real - y)
  {
    RoundNear(y);
    ClampNearest(Round(y), y, -127, 127, k);
  }

  /** Whatever tolerance the multiple k meets, a nearer multiple c meets too. */
  lemma ErrorOrder(s: real, c: real, k: real, y: real, t: real)
    requires s > 0.0 && Abs(c - y) <= Abs(k - y) && -t <= Scaled(s, k) - Scaled(s, y) <= t
    ensures -t <= Scaled(s, c) - Scaled(s, y) <= t
  {
    ScaledDifference(s, c, y);
    ScaledDifference(s, y, c);
    ScaledDifference(s, k, y);
    ScaledDifference(s, y, k);
    if k >= y {
      ScaledMonotone(s, c - y, k - y);
      ScaledMonotone(s, y - c, k - y);
    } else {
      ScaledMonotone(s, c - y, y - k);
      ScaledMonotone(s, y - c, y - k);
    }
  }

  /** One value, its scale and its code: the zero scale only for zero, else the code of the ratio. */
  ghost predicate Element(v: real, s: real, c: int) {
    if s == 0.0 then v == 0.0 && c == 0 else InRange(v, s) && c == Code(v, s)
  }

  ghost predicate Encodes(r: Row, x: seq<real>) {
    |r.codes| == |x| && forall i :: 0 <= i < |x| ==> Element(x[i], r.scale, r.codes[i])
  }

  lemma EncodedRowEncodes(x: seq<real>)
    ensures EncodedRow(x).Ok? ==> Encodes(EncodedRow(x).value, x)
  {
    var p := Peak(x);
    if p != 0.0 {
      forall i | 0 <= i < |x| ensures InRange(x[i], p / 127.0) {
        PeakInRange(x[i], p / 127.0);
      }
    }
  }

  /** The codes from -127 to 127 reach every value of the row. */
  ghost predicate Spans(s: real, x: seq<real>) {
    s >= 0.0 && forall i :: 0 <= i < |x| ==> -(127.0 * s) <= x[i] <= 127.0 * s
  }

  ghost predicate LeastScale(s: real, x: seq<real>) {
    Spans(s, x) && forall t :: Spans(t, x) ==> s <= t
  }

  /** The scale is the least whose codes reach the whole row; it is too large to store exactly when a value is 127
      times the largest storable scale or more. */
  lemma EncodedRowScale(x: seq<real>)
    ensures EncodedRow(x).Err? <==> exists i :: 0 <= i < |x| && Abs(x[i]) >= 8321040.0
    ensures EncodedRow(x).Ok? ==> LeastScale(EncodedRow(x).value.scale, x)
  {
    PeakSpans(x);
    var p := Peak(x);
    if p > 0.0 {
      var k :| 0 <= k < |x| && Abs(x[k]) == p;
      assert p / 127.0 >= F16_OVERFLOW <==> Abs(x[k]) >= 8321040.0;
    }
  }

  lemma PeakSpans(x: seq<real>)
    ensures LeastScale(Peak(x) / 127.0, x)
  {
    var p := Peak(x);
    forall i | 0 <= i < |x| ensures -(127.0 * (p / 127.0)) <= x[i] <= 127.0 * (p / 127.0) {
      assert Abs(x[i]) <= p;
    }
    forall t | Spans(t, x) ensures p / 127.0 <= t {
      if p > 0.0 {
        var k :| 0 <= k < |x| && Abs(x[k]) == p;
        assert -(127.0 * t) <= x[k] <= 127.0 * t;
      }
    }
  }

  /** In a row with a nonzero value some code is 127 or -127, and decodes exactly. */
  lemma SomeCodeIsFull(x: seq<real>) returns (i: nat)
    requires EncodedRow(x).Ok? && exists k :: 0 <= k < |x| && x[k] != 0.0
    ensures i < |x| == |EncodedRow(x).value.codes| && EncodedRow(x).value.codes[i] in {127, -127}
    ensures Decode(EncodedRow(x).value)[i] == x[i]
  {
    var p := Peak(x);
    var z :| 0 <= z < |x| && x[z] != 0.0;
    assert Abs(x[z]) > 0.0;
    i :| 0 <= i < |x| && Abs(x[i]) == p;
    FullCode(x[i], p);
  }

  lemma FullCode(v: real, p: real)
    requires p > 0.0 && Abs(v) == p
    ensures v / (p / 127.0) == (if v < 0.0 then -127.0 else 127.0)
    ensures Code(v, p / 127.0) == (if v < 0.0 then -127 else 127)
    ensures Scaled(p / 127.0, Code(v, p / 127.0) as real) == v
  {
    var s := p / 127.0;
    ScaledConstants(s);
    ScaledQuotient(v, s);
    ScaledStrict(s, v / s, if v < 0.0 then -127.0 else 127.0);
    ScaledStrict(s, if v < 0.0 then -127.0 else 127.0, v / s);
  }

  /** A code stays within 127, zero is exact, and the value decodes within half a step. */
  lemma ElementError(v: real, s: real, c: int)
    requires Element(v, s, c)
    ensures -127 <= c <= 127 && (v == 0.0 ==> c == 0)
    ensures -(s / 2.0) <= Scaled(s, c as real) - v <= s / 2.0
  {
    if s != 0.0 {
      ScaledQuotient(v, s);
      CodeNear(c, v / s);
      HalfStep(s, c as real, v / s);
    }
  }

  /** No other code decodes nearer: any tolerance that code k meets, the chosen code meets. */
  lemma ElementNearest(v: real, s: real, c: int, k: int, t: real)
    requires Element(v, s, c) && -127 <= k <= 127 && -t <= Scaled(s, k as real) - v <= t
    ensures -t <= Scaled(s, c as real) - v <= t
  {
    if s != 0.0 {
      ScaledQuotient(v, s);
      CodeNearest(c, v / s, k);
      ErrorOrder(s, c as real, k as real, v / s, t);
    }
  }

  /** The promise for a whole row. */
  lemma RowError(r: Row, x: seq<real>, i: nat)
    requires Encodes(r, x) && i < |x|
    ensures -127 <= r.codes[i] <= 127 && (x[i] == 0.0 ==> r.codes[i] == 0)
    ensures -(r.scale / 2.0) <= Decode(r)[i] - x[i] <= r.scale / 2.0
  {
    ElementError(x[i], r.scale, r.codes[i]);
  }
}
