/** The blocked encoders: 8-bit codes with one scale per 128 values, and 4-bit superblocks whose eight blocks
    share two super-scales. */
module QuantizerBlocks {
  import opened Results
  import opened Quantizer

  // ---------------------------------------------------------------- one 8-bit scale per 128 values

  datatype Blocked = Blocked(codes: seq<int>, scales: seq<real>)

  /** Block b of a flat vector, width values wide. */
  function Block<T>(x: seq<T>, width: nat, b: nat): (r: seq<T>)
    requires (b + 1) * width <= |x|
    ensures |r| == width
  {
    assert (b + 1) * width == b * width + width;
    x[b * width..b * width + width]
  }

  ghost predicate BlockTooLarge(x: seq<real>, b: nat)
    requires (b + 1) * 128 <= |x|
  {
    EncodedRow(Block(x, 128, b)).Err?
  }

  /** Every block is encoded like a row of its own. */
  ghost predicate EncodesBlocks(r: Blocked, x: seq<real>, count: nat)
    requires count * 128 <= |x|
  {
    |r.codes| == count * 128 && |r.scales| == count
    && forall b: nat :: b < count ==>
         EncodedRow(Block(x, 128, b)) == Ok(Row(Block(r.codes, 128, b), r.scales[b]))
  }

  method EncodeBlocks(x: seq<real>) returns (r: Result<Blocked, Error>)
    ensures r == Err(BadLength) <==> x == [] || |x| % 128 != 0
    ensures r == Err(ScaleTooLarge) <==>
            x != [] && |x| % 128 == 0 && exists b: nat :: b < |x| / 128 && BlockTooLarge(x, b)
    ensures r.Ok? ==> EncodesBlocks(r.value, x, |x| / 128)
    ensures r == Err(ScaleTooLarge) <==>
            x != [] && |x| % 128 == 0 && exists i :: 0 <= i < |x| && Abs(x[i]) >= 8321040.0
  {
    BlocksTooLarge(x);
    if x == [] || |x| % 128 != 0 { return Err(BadLength); }
    var q: seq<int>, scales: seq<real> := [], [];
    for b := 0 to |x| / 128
      invariant EncodesBlocks(Blocked(q, scales), x, b)
      invariant forall c: nat :: c < b ==> !BlockTooLarge(x, c)
    {
      var block := Block(x, 128, b);
      var one := EncodeRow(block);
      assert BlockTooLarge(x, b) <==> one.Err?;
      if one.Err? { return Err(ScaleTooLarge); }
      BlockAppended(Blocked(q, scales), x, b, one.value);
      q := q + one.value.codes;
      scales := scales + [one.value.scale];
    }
    r := Ok(Blocked(q, scales));
  }

  lemma BlocksTooLarge(x: seq<real>)
    ensures |x| % 128 == 0 ==>
              ((exists b: nat :: b < |x| / 128 && BlockTooLarge(x, b))
               <==> exists i :: 0 <= i < |x| && Abs(x[i]) >= 8321040.0)
  {
    if |x| % 128 == 0 {
      if b: nat :| b < |x| / 128 && BlockTooLarge(x, b) {
        EncodedRowScale(Block(x, 128, b));
        var k :| 0 <= k < 128 && Abs(Block(x, 128, b)[k]) >= 8321040.0;
        assert x[b * 128 + k] == Block(x, 128, b)[k];
      }
      if i :| 0 <= i < |x| && Abs(x[i]) >= 8321040.0 {
        EncodedRowScale(Block(x, 128, i / 128));
        assert Block(x, 128, i / 128)[i % 128] == x[i];
        assert BlockTooLarge(x, i / 128);
      }
    }
  }

  /** Every block has the least scale whose codes reach it. */
  lemma BlocksScale(r: Blocked, x: seq<real>, b: nat)
    requires |x| % 128 == 0 && EncodesBlocks(r, x, |x| / 128) && b < |x| / 128
    ensures LeastScale(r.scales[b], Block(x, 128, b))
  {
    EncodedRowScale(Block(x, 128, b));
  }

  lemma BlockAppended(r: Blocked, x: seq<real>, count: nat, one: Row)
    requires (count + 1) * 128 <= |x| && EncodesBlocks(r, x, count) && |one.codes| == 128
    requires EncodedRow(Block(x, 128, count)) == Ok(one)
    ensures EncodesBlocks(Blocked(r.codes + one.codes, r.scales + [one.scale]), x, count + 1)
  {
    var codes := r.codes + one.codes;
    assert Block(codes, 128, count) == one.codes;
    forall b: nat | b < count ensures Block(codes, 128, b) == Block(r.codes, 128, b) {
    }
  }

  /** Each value decodes within half of its own block's scale. */
  lemma BlocksError(r: Blocked, x: seq<real>, i: nat)
    requires i < |x| && |x| % 128 == 0 && EncodesBlocks(r, x, |x| / 128)
    ensures -127 <= r.codes[i] <= 127 && (x[i] == 0.0 ==> r.codes[i] == 0)
    ensures -(r.scales[i / 128] / 2.0) <= Scaled(r.scales[i / 128], r.codes[i] as real) - x[i] <= r.scales[i / 128] / 2.0
  {
    var b := i / 128;
    EncodedRowEncodes(Block(x, 128, b));
    assert Block(x, 128, b)[i % 128] == x[i] && Block(r.codes, 128, b)[i % 128] == r.codes[i];
    ElementError(x[i], r.scales[b], r.codes[i]);
  }

  // ---------------------------------------------------------------- 4-bit superblocks

  datatype Super = Super(d: real, dmin: real, sc: seq<int>, mn: seq<int>)
  datatype Superblock = Superblock(codes: seq<int>, header: Super)

  function Least(x: seq<real>): real
    requires x != []
  {
    var last := x[|x| - 1];
    if |x| == 1 || last < Least(x[..|x| - 1]) then last else Least(x[..|x| - 1])
  }

  function Greatest(x: seq<real>): real
    requires x != []
  {
    var last := x[|x| - 1];
    if |x| == 1 || last > Greatest(x[..|x| - 1]) then last else Greatest(x[..|x| - 1])
  }

  lemma {:induction false} Extremes(x: seq<real>, i: nat)
    requires i < |x|
    ensures Least(x) <= x[i] <= Greatest(x) && Least(x) in x && Greatest(x) in x
  {
    if |x| > 1 { Extremes(x[..|x| - 1], if i < |x| - 1 then i else 0); }
  }

  datatype Grid = Grid(step: real, floor: real)

  function GridOf(x: seq<real>): Grid
    requires x != []
  {
    var lo := if Least(x) > 0.0 then 0.0 else Least(x);
    Grid(if Greatest(x) > lo then (Greatest(x) - lo) / 15.0 else 0.0, -lo)
  }

  /** The value lies on the span of the grid. */
  ghost predicate OnGrid(v: real, g: Grid) {
    g.step >= 0.0 && g.floor >= 0.0 && -g.floor <= v <= 15.0 * g.step - g.floor
  }

  lemma GridCovers(x: seq<real>, i: nat)
    requires i < |x|
    ensures OnGrid(x[i], GridOf(x))
  {
    Extremes(x, i);
  }

  /** Some grid reaches every value of the block with sixteen levels from its negated floor up. */
  ghost predicate Reaches(g: Grid, x: seq<real>) { forall i :: 0 <= i < |x| ==> OnGrid(x[i], g) }

  /** The grid has the least floor that reaches its block, and the least step under that floor. */
  lemma GridIsLeast(x: seq<real>, g: Grid)
    requires x != [] && Reaches(g, x)
    ensures Reaches(GridOf(x), x) && GridOf(x).floor <= g.floor
    ensures GridOf(x).floor == g.floor ==> GridOf(x).step <= g.step
  {
    forall i | 0 <= i < |x| ensures OnGrid(x[i], GridOf(x)) { GridCovers(x, i); }
    Extremes(x, 0);
    var low :| 0 <= low < |x| && x[low] == Least(x);
    var high :| 0 <= high < |x| && x[high] == Greatest(x);
    assert OnGrid(x[low], g) && OnGrid(x[high], g);
  }

  method FindGrid(x: seq<real>) returns (g: Grid)
    requires x != []
    ensures g == GridOf(x)
  {
    var lo, hi := FindExtremes(x);
    if lo > 0.0 { lo := 0.0; }
    g := Grid(if hi > lo then (hi - lo) / 15.0 else 0.0, -lo);
  }

  method FindExtremes(x: seq<real>) returns (lo: real, hi: real)
    requires x != []
    ensures lo == Least(x) && hi == Greatest(x)
  {
    lo, hi := x[0], x[0];
    for i := 1 to |x|
      invariant lo == Least(x[..i]) && hi == Greatest(x[..i])
    {
      LastExtremes(x[..i], x[i]);
      assert x[..i] + [x[i]] == x[..i + 1];
      if x[i] < lo { lo := x[i]; }
      if x[i] > hi { hi := x[i]; }
    }
    assert x[..|x|] == x;
  }

  lemma LastExtremes(x: seq<real>, v: real)
    requires x != []
    ensures Least(x + [v]) == if v < Least(x) then v else Least(x)
    ensures Greatest(x + [v]) == if v > Greatest(x) then v else Greatest(x)
  {
    assert (x + [v])[..|x|] == x;
  }

  /** A six-bit multiple of a super-scale. */
  function SixBit(v: real, d: real): int {
    if d > 0.0 then Clamp(Round(v / d), 0, 63) else 0
  }

  /** A four-bit code on the decoded grid. */
  function Nibble(v: real, step: real, floor: real): int {
    if step > 0.0 then Clamp(Round((v + floor) / step), 0, 15) else 0
  }

  /** The super-scale holds a quantity up to 63 times its own size. */
  ghost predicate Holds63(v: real, d: real) {
    0.0 <= v <= 63.0 * d
  }

  lemma SixBitError(v: real, d: real)
    requires Holds63(v, d)
    ensures 0 <= SixBit(v, d) <= 63
    ensures -(d / 2.0) <= Scaled(d, SixBit(v, d) as real) - v <= d / 2.0
  {
    if d > 0.0 {
      ScaledQuotient(v, d);
      SixBitRange(v / d, v, d);
      RoundNear(v / d);
      HalfStep(d, SixBit(v, d) as real, v / d);
    }
  }

  lemma SixBitRange(y: real, v: real, d: real)
    requires d > 0.0 && Scaled(d, y) == v && Holds63(v, d)
    ensures 0.0 <= y <= 63.0
  {
    assert Scaled(d, 63.0) == 63.0 * d && Scaled(d, 0.0) == 0.0;
    ScaledStrict(d, 63.0, y);
    ScaledStrict(d, y, 0.0);
  }

  /** The decoded step and floor are within half a super-scale of the exact ones. */
  ghost predicate Near(g: Grid, step: real, floor: real, d: real, dmin: real) {
    -(d / 2.0) <= step - g.step <= d / 2.0 && -(dmin / 2.0) <= floor - g.floor <= dmin / 2.0
  }

  function ErrorBound(step: real, d: real, dmin: real): real {
    var clamped := 7.5 * d + dmin / 2.0;
    if step / 2.0 > clamped then step / 2.0 else clamped
  }

  /** Codes inside the range err by half a step at most; clamped codes and zero steps by what the super-scales
      lost. */
  lemma NibbleError(v: real, g: Grid, step: real, floor: real, d: real, dmin: real)
    requires OnGrid(v, g) && Near(g, step, floor, d, dmin) && step >= 0.0 && d >= 0.0 && dmin >= 0.0
    ensures var e := Scaled(step, Nibble(v, step, floor) as real) - floor - v;
            -ErrorBound(step, d, dmin) <= e <= ErrorBound(step, d, dmin)
  {
    if step > 0.0 {
      var y := (v + floor) / step;
      ScaledQuotient(v + floor, step);
      RoundNear(y);
      ClampedError(Round(y), y, step, v, g, floor, d, dmin);
    } else {
      assert Scaled(step, 0.0) == 0.0;
    }
  }

  lemma ClampedError(r: int, y: real, step: real, v: real, g: Grid, floor: real, d: real, dmin: real)
    requires OnGrid(v, g) && Near(g, step, floor, d, dmin) && step > 0.0 && d >= 0.0 && dmin >= 0.0
    requires Scaled(step, y) == v + floor && -0.5 <= r as real - y <= 0.5
    ensures var e := Scaled(step, Clamp(r, 0, 15) as real) - floor - v;
            -ErrorBound(step, d, dmin) <= e <= ErrorBound(step, d, dmin)
  {
    if r < 0 {
      assert Scaled(step, 0.0) == 0.0;
      ScaledStrict(step, y, 0.0);
    } else if r > 15 {
      assert Scaled(step, 15.0) == 15.0 * step;
      ScaledStrict(step, 15.0, y);
    } else {
      HalfStep(step, r as real, y);
    }
  }

  /** No other nibble decodes nearer. */
  lemma NibbleNearest(v: real, step: real, floor: real, k: int, t: real)
    requires step >= 0.0 && 0 <= k <= 15 && -t <= Scaled(step, k as real) - floor - v <= t
    ensures -t <= Scaled(step, Nibble(v, step, floor) as real) - floor - v <= t
  {
    if step > 0.0 {
      var y := (v + floor) / step;
      ScaledQuotient(v + floor, step);
      RoundNear(y);
      ClampNearest(Round(y), y, 0, 15, k);
      ErrorOrder(step, Nibble(v, step, floor) as real, k as real, y, t);
    } else {
      assert Scaled(step, k as real) == 0.0;
      assert Scaled(step, 0.0) == 0.0;
    }
  }

  /** The exact grid of each of the first count blocks of 32. */
  function Grids(x: seq<real>, count: nat): (g: seq<Grid>)
    requires count * 32 <= |x|
    ensures |g| == count
  {
    if count == 0 then [] else Grids(x, count - 1) + [GridOf(Block(x, 32, count - 1))]
  }

  function Steps(g: seq<Grid>): (s: seq<real>)
    ensures |s| == |g|
  {
    seq(|g|, j requires 0 <= j < |g| => g[j].step)
  }

  function Floors(g: seq<Grid>): (s: seq<real>)
    ensures |s| == |g|
  {
    seq(|g|, j requires 0 <= j < |g| => g[j].floor)
  }

  function SuperScale(v: seq<real>): real { Peak(v) / 63.0 }

  ghost predicate Multiples(m: seq<int>, v: seq<real>, d: real) {
    |m| == |v| && forall j :: 0 <= j < |v| ==> m[j] == SixBit(v[j], d)
  }

  ghost predicate HeaderFor(h: Super, g: seq<Grid>) {
    h.d == SuperScale(Steps(g)) && h.dmin == SuperScale(Floors(g))
    && Multiples(h.sc, Steps(g), h.d) && Multiples(h.mn, Floors(g), h.dmin)
  }

  function BlockStep(h: Super, j: nat): real
    requires j < |h.sc|
  {
    Scaled(h.d, h.sc[j] as real)
  }

  function BlockFloor(h: Super, j: nat): real
    requires j < |h.mn|
  {
    Scaled(h.dmin, h.mn[j] as real)
  }

  ghost predicate CodesFor(q: seq<int>, h: Super, x: seq<real>)
    requires |x| <= 256 && |h.sc| == |h.mn| == 8
  {
    |q| == |x| && forall i :: 0 <= i < |q| ==> q[i] == Nibble(x[i], BlockStep(h, i / 32), BlockFloor(h, i / 32))
  }

  ghost predicate EncodesSuper(b: Superblock, x: seq<real>) {
    |x| == 256 && HeaderFor(b.header, Grids(x, 8)) && CodesFor(b.codes, b.header, x)
  }

  function DecodeAt(b: Superblock, i: nat): real
    requires i < |b.codes| && i / 32 < |b.header.sc| && i / 32 < |b.header.mn|
  {
    Scaled(BlockStep(b.header, i / 32), b.codes[i] as real) - BlockFloor(b.header, i / 32)
  }

  method EncodeSuperblock(x: seq<real>) returns (r: Result<Superblock, Error>)
    requires |x| == 256
    ensures r == Err(ScaleTooLarge) <==> TooWide(x)
    ensures r.Ok? ==> EncodesSuper(r.value, x)
    ensures r.Err? ==> r == Err(ScaleTooLarge)
  {
    RefusedIff(x);
    var g := FindGrids(x);
    var peakStep := FindPeak(Steps(g));
    var peakFloor := FindPeak(Floors(g));
    var d := if peakStep > 0.0 then peakStep / 63.0 else 0.0;
    var dmin := if peakFloor > 0.0 then peakFloor / 63.0 else 0.0;
    if d >= F16_OVERFLOW || dmin >= F16_OVERFLOW { return Err(ScaleTooLarge); }
    var sc := FindMultiples(Steps(g), d);
    var mn := FindMultiples(Floors(g), dmin);
    var h := Super(d, dmin, sc, mn);
    var q := FindCodes(x, h);
    r := Ok(Superblock(q, h));
  }

  method FindGrids(x: seq<real>) returns (g: seq<Grid>)
    requires |x| == 256
    ensures g == Grids(x, 8)
  {
    g := [];
    for j := 0 to 8
      invariant g == Grids(x, j)
    {
      var one := FindGrid(Block(x, 32, j));
      g := g + [one];
    }
  }

  method FindMultiples(v: seq<real>, d: real) returns (m: seq<int>)
    ensures Multiples(m, v, d)
  {
    m := [];
    for j := 0 to |v|
      invariant |m| == j && forall k :: 0 <= k < j ==> m[k] == SixBit(v[k], d)
    {
      m := m + [SixBit(v[j], d)];
    }
  }

  method FindCodes(x: seq<real>, h: Super) returns (q: seq<int>)
    requires |x| == 256 && |h.sc| == |h.mn| == 8
    ensures CodesFor(q, h, x)
  {
    q := [];
    for i := 0 to 256
      invariant CodesFor(q, h, x[..i])
    {
      q := q + [Nibble(x[i], BlockStep(h, i / 32), BlockFloor(h, i / 32))];
    }
    assert x[..256] == x;
  }

  lemma GridsAt(x: seq<real>, count: nat, j: nat)
    requires count * 32 <= |x| && j < count
    ensures (j + 1) * 32 <= |x| && Grids(x, count)[j] == GridOf(Block(x, 32, j))
  {
    if j < count - 1 { GridsAt(x, count - 1, j); }
  }

  /** No quantity exceeds 63 times the super-scale taken from the largest. */
  lemma PeakHolds(v: seq<real>, j: nat)
    requires j < |v| && v[j] >= 0.0
    ensures Holds63(v[j], SuperScale(v)) && SuperScale(v) >= 0.0
  {
    assert Abs(v[j]) <= Peak(v);
  }

  /** The largest quantity is exactly 63 super-scales. */
  lemma FullField(v: real, p: real)
    requires p > 0.0 && v == p
    ensures SixBit(v, p / 63.0) == 63 && Scaled(p / 63.0, 63.0) == v
  {
    var d := p / 63.0;
    ScaledQuotient(v, d);
    assert Scaled(d, 63.0) == v;
    ScaledStrict(d, v / d, 63.0);
    ScaledStrict(d, 63.0, v / d);
  }

  /** Of eight quantities, not all zero, one takes the whole six-bit field and decodes exactly. */
  lemma SomeFieldIsFull(v: seq<real>, m: seq<int>) returns (j: nat)
    requires Multiples(m, v, SuperScale(v)) && forall k :: 0 <= k < |v| ==> v[k] >= 0.0
    requires exists k :: 0 <= k < |v| && v[k] != 0.0
    ensures j < |v| == |m| && m[j] == 63 && Scaled(SuperScale(v), m[j] as real) == v[j]
  {
    var z :| 0 <= z < |v| && v[z] != 0.0;
    assert Abs(v[z]) <= Peak(v);
    j :| 0 <= j < |v| && Abs(v[j]) == Peak(v);
    FullField(v[j], Peak(v));
  }

  /** Both header scales of a superblock are as small as their fields allow: a nonzero one has a full field that decodes
      its block exactly. */
  lemma HeaderIsTight(b: Superblock, x: seq<real>)
    requires EncodesSuper(b, x)
    ensures b.header.d > 0.0 ==> exists j :: 0 <= j < 8 && b.header.sc[j] == 63 && BlockStep(b.header, j) == Grids(x, 8)[j].step
    ensures b.header.dmin > 0.0 ==> exists j :: 0 <= j < 8 && b.header.mn[j] == 63 && BlockFloor(b.header, j) == Grids(x, 8)[j].floor
    ensures |b.header.sc| == |b.header.mn| == 8
    ensures b.header.d <= 0.0 ==> forall j :: 0 <= j < 8 ==> b.header.sc[j] == 0
    ensures b.header.dmin <= 0.0 ==> forall j :: 0 <= j < 8 ==> b.header.mn[j] == 0
  {
    var g, h := Grids(x, 8), b.header;
    forall j | 0 <= j < 8 ensures g[j].step >= 0.0 && g[j].floor >= 0.0 {
      GridsAt(x, 8, j);
      GridCovers(Block(x, 32, j), 0);
    }
    if h.d > 0.0 {
      var k :| 0 <= k < 8 && Abs(Steps(g)[k]) == Peak(Steps(g));
      var j := SomeFieldIsFull(Steps(g), h.sc);
      assert BlockStep(h, j) == g[j].step;
    }
    if h.dmin > 0.0 {
      var k :| 0 <= k < 8 && Abs(Floors(g)[k]) == Peak(Floors(g));
      var j := SomeFieldIsFull(Floors(g), h.mn);
      assert BlockFloor(h, j) == g[j].floor;
    }
  }

  lemma HeaderNear(h: Super, g: seq<Grid>, j: nat)
    requires HeaderFor(h, g) && j < |g| && g[j].step >= 0.0 && g[j].floor >= 0.0
    ensures 0 <= h.sc[j] <= 63 && 0 <= h.mn[j] <= 63
    ensures h.d >= 0.0 && h.dmin >= 0.0 && BlockStep(h, j) >= 0.0
    ensures Near(g[j], BlockStep(h, j), BlockFloor(h, j), h.d, h.dmin)
    ensures Within(BlockStep(h, j), g[j].step, h.d / 2.0) && Within(BlockFloor(h, j), g[j].floor, h.dmin / 2.0)
  {
    PeakHolds(Steps(g), j);
    PeakHolds(Floors(g), j);
    SixBitError(g[j].step, h.d);
    SixBitError(g[j].floor, h.dmin);
    assert Scaled(h.d, 0.0) == 0.0;
    ScaledMonotone(h.d, 0.0, h.sc[j] as real);
  }

  ghost predicate Within(a: real, b: real, t: real) { -t <= a - b <= t }

  /** Codes fit in four bits and header fields in six, and every value decodes within half its block's step, or
      within what rounding the step and the floor to six bits lost. */
  lemma SuperblockError(b: Superblock, x: seq<real>, i: nat)
    requires EncodesSuper(b, x) && i < 256
    ensures 0 <= b.codes[i] <= 15 && 0 <= b.header.sc[i / 32] <= 63 && 0 <= b.header.mn[i / 32] <= 63
    ensures Within(DecodeAt(b, i), x[i], BlockStep(b.header, i / 32) / 2.0)
            || Within(DecodeAt(b, i), x[i], 7.5 * b.header.d + b.header.dmin / 2.0)
    ensures BlockStep(b.header, i / 32) <= 0.0 ==> b.codes[i] == 0
  {
    OnBlockGrid(x, i);
    HeaderNear(b.header, Grids(x, 8), i / 32);
    NibbleWithin(b.codes[i], x[i], Grids(x, 8)[i / 32], BlockStep(b.header, i / 32), BlockFloor(b.header, i / 32),
                 b.header.d, b.header.dmin);
  }

  lemma NibbleWithin(q: int, v: real, g: Grid, step: real, floor: real, d: real, dmin: real)
    requires OnGrid(v, g) && Near(g, step, floor, d, dmin) && step >= 0.0 && d >= 0.0 && dmin >= 0.0
    requires q == Nibble(v, step, floor)
    ensures 0 <= q <= 15 && Within(Scaled(step, q as real) - floor, v, ErrorBound(step, d, dmin))
  {
    NibbleError(v, g, step, floor, d, dmin);
  }

  lemma OnBlockGrid(x: seq<real>, i: nat)
    requires |x| == 256 && i < 256
    ensures OnGrid(x[i], Grids(x, 8)[i / 32])
  {
    GridsAt(x, 8, i / 32);
    GridCovers(Block(x, 32, i / 32), i % 32);
    assert Block(x, 32, i / 32)[i % 32] == x[i];
  }

  /** Whatever tolerance another nibble would meet under the same header, the chosen one meets. */
  lemma SuperblockNearest(b: Superblock, x: seq<real>, i: nat, k: int, t: real)
    requires EncodesSuper(b, x) && i < 256 && 0 <= k <= 15
    requires Within(DecodeAt(b.(codes := b.codes[i := k]), i), x[i], t)
    ensures Within(DecodeAt(b, i), x[i], t)
  {
    OnBlockGrid(x, i);
    HeaderNear(b.header, Grids(x, 8), i / 32);
    NibbleNearest(x[i], BlockStep(b.header, i / 32), BlockFloor(b.header, i / 32), k, t);
  }

  // ---------------------------------------------------------------- when a superblock is refused

  /** Two values of one block of 32. */
  predicate Together(i: int, k: int) { i / 32 == k / 32 }

  /** A value is far below zero, far above it, or far above another of its block. */
  ghost predicate TooWide(x: seq<real>) {
    exists i, k :: 0 <= i < |x| && 0 <= k < |x| && Together(i, k)
                   && (x[i] <= -4127760.0 || x[i] >= 61916400.0 || x[i] - x[k] >= 61916400.0)
  }

  lemma GridTooWide(x: seq<real>)
    requires x != []
    ensures GridOf(x).step >= 4127760.0 || GridOf(x).floor >= 4127760.0
            <==> exists i, k :: 0 <= i < |x| && 0 <= k < |x|
                                && (x[i] <= -4127760.0 || x[i] >= 61916400.0 || x[i] - x[k] >= 61916400.0)
  {
    Extremes(x, 0);
    var low :| 0 <= low < |x| && x[low] == Least(x);
    var high :| 0 <= high < |x| && x[high] == Greatest(x);
    if i, k :| 0 <= i < |x| && 0 <= k < |x| && (x[i] <= -4127760.0 || x[i] >= 61916400.0 || x[i] - x[k] >= 61916400.0) {
      Extremes(x, i);
      Extremes(x, k);
    }
    assert GridOf(x).floor >= 4127760.0 ==> x[low] <= -4127760.0 && x[low] - x[low] == 0.0;
    assert GridOf(x).step >= 4127760.0 ==> x[high] >= 61916400.0 || x[high] - x[low] >= 61916400.0;
  }

  /** A super-scale overflows exactly when one of its quantities is 63 times the largest storable scale or more. */
  lemma SuperScaleTooLarge(v: seq<real>)
    requires forall j :: 0 <= j < |v| ==> v[j] >= 0.0
    ensures SuperScale(v) >= F16_OVERFLOW <==> exists j :: 0 <= j < |v| && v[j] >= 4127760.0
  {
    if Peak(v) > 0.0 {
      var k :| 0 <= k < |v| && Abs(v[k]) == Peak(v);
      assert v[k] / 63.0 >= F16_OVERFLOW <==> v[k] >= 4127760.0;
    }
    forall j | 0 <= j < |v| ensures v[j] <= Peak(v) { assert Abs(v[j]) <= Peak(v); }
  }

  /** A superblock is refused exactly when it is too wide. */
  lemma RefusedIff(x: seq<real>)
    requires |x| == 256
    ensures SuperScale(Steps(Grids(x, 8))) >= F16_OVERFLOW || SuperScale(Floors(Grids(x, 8))) >= F16_OVERFLOW
            <==> TooWide(x)
  {
    var g := Grids(x, 8);
    forall j | 0 <= j < 8 ensures g[j] == GridOf(Block(x, 32, j)) && g[j].step >= 0.0 && g[j].floor >= 0.0 {
      GridsAt(x, 8, j);
      GridCovers(Block(x, 32, j), 0);
    }
    SuperScaleTooLarge(Steps(g));
    SuperScaleTooLarge(Floors(g));
    assert (SuperScale(Steps(g)) >= F16_OVERFLOW || SuperScale(Floors(g)) >= F16_OVERFLOW)
      <==> exists j :: 0 <= j < 8 && WideGrid(g[j]) by {
      if j :| 0 <= j < 8 && Steps(g)[j] >= 4127760.0 { assert WideGrid(g[j]); }
      if j :| 0 <= j < 8 && Floors(g)[j] >= 4127760.0 { assert WideGrid(g[j]); }
      if j :| 0 <= j < 8 && WideGrid(g[j]) { assert Steps(g)[j] >= 4127760.0 || Floors(g)[j] >= 4127760.0; }
    }
    WideIff(x, g);
  }

  predicate WideGrid(g: Grid) { g.step >= 4127760.0 || g.floor >= 4127760.0 }

  lemma WideIff(x: seq<real>, g: seq<Grid>)
    requires |x| == 256 && |g| == 8 && forall j :: 0 <= j < 8 ==> g[j] == GridOf(Block(x, 32, j))
    ensures TooWide(x) <==> exists j :: 0 <= j < 8 && WideGrid(g[j])
  {
    if j :| 0 <= j < 8 && WideGrid(g[j]) {
      var b := Block(x, 32, j);
      GridTooWide(b);
      var i, k :| 0 <= i < 32 && 0 <= k < 32 && (b[i] <= -4127760.0 || b[i] >= 61916400.0 || b[i] - b[k] >= 61916400.0);
      assert x[j * 32 + i] == b[i] && x[j * 32 + k] == b[k] && Together(j * 32 + i, j * 32 + k);
    }
    if i, k :| 0 <= i < 256 && 0 <= k < 256 && Together(i, k)
               && (x[i] <= -4127760.0 || x[i] >= 61916400.0 || x[i] - x[k] >= 61916400.0) {
      var b := Block(x, 32, i / 32);
      assert b[i % 32] == x[i] && b[k % 32] == x[k];
      GridTooWide(b);
      assert WideGrid(g[i / 32]);
    }
  }
}
