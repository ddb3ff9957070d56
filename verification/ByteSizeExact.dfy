/** What the byte-size parser promises: no rounding, and acceptance exactly when the value is a whole
    number of bytes that 64 bits hold and the fraction can be computed in 128 bits. */
module ByteSizeExact {
  import opened Results
  import opened Decimal
  import opened ByteSize

  /** The numeral `digits.frac` times the unit is n bytes, exactly. */
  ghost predicate Denotes(digits: string, frac: string, multiplier: nat, n: nat)
    requires AllDigits(digits) && AllDigits(frac)
  {
    n * Pow10(|frac|) == Value(digits + frac) * multiplier
  }

  /** The significant fraction digits are few enough, and small enough, for the 128-bit product. */
  predicate Fits(f: string, multiplier: nat)
    requires AllDigits(f)
  {
    |f| <= 28 && Value(f) * multiplier < U128_LIMIT
  }

  lemma {:induction false} Pow10Add(a: nat, b: nat)
    ensures Pow10(a + b) == Pow10(a) * Pow10(b)
  {
    if b > 0 {
      Pow10Add(a, b - 1);
      MulAssoc(Pow10(a), 10, Pow10(b - 1));
    }
  }

  lemma MulAssoc(x: int, y: int, z: int)
    ensures x * (y * z) == y * (x * z) == (x * y) * z
  {
  }

  lemma {:induction false} ValueAppend(a: string, b: string)
    requires AllDigits(a) && AllDigits(b)
    ensures Value(a + b) == Value(a) * Pow10(|b|) + Value(b)
  {
    if b == [] {
      assert a + b == a;
    } else {
      var b', c := b[..|b| - 1], DigitValue(b[|b| - 1]);
      assert (a + b)[..|a + b| - 1] == a + b';
      ValueAppend(a, b');
      MulAssoc(10, Value(a), Pow10(|b'|));
    }
  }

  /** Trailing zeros scale the fraction and its denominator alike. */
  lemma {:induction false} DropZerosScales(frac: string)
    requires AllDigits(frac)
    ensures var f := DropZeros(frac); var z := Pow10(|frac| - |f|);
            Value(frac) == Value(f) * z && Pow10(|frac|) == Pow10(|f|) * z
  {
    var f := DropZeros(frac);
    Pow10Add(|f|, |frac| - |f|);
    if frac != [] && frac[|frac| - 1] == '0' {
      DropZerosScales(frac[..|frac| - 1]);
      MulAssoc(10, Value(f), Pow10(|frac| - 1 - |f|));
    }
  }

  /** n is w plus the fraction x/p. */
  ghost predicate WholePlusFraction(n: nat, w: nat, x: nat, p: nat) {
    n * p == w * p + x
  }

  /** The defining equation with the trailing zeros cancelled. */
  lemma DenotesIff(digits: string, frac: string, multiplier: nat, n: nat)
    requires AllDigits(digits) && AllDigits(frac)
    ensures var f := DropZeros(frac);
            Denotes(digits, frac, multiplier, n) <==>
            WholePlusFraction(n, Value(digits) * multiplier, Value(f) * multiplier, Pow10(|f|))
  {
    var f := DropZeros(frac);
    var z := Pow10(|frac| - |f|);
    ValueAppend(digits, frac);
    DropZerosScales(frac);
    CancelZeros(n, Value(digits), Value(f), Pow10(|f|), z, multiplier);
  }

  lemma CancelZeros(n: nat, d: nat, v: nat, p: nat, z: nat, m: nat)
    requires z > 0
    ensures n * (p * z) == (d * (p * z) + v * z) * m <==> n * p == d * m * p + v * m
  {
    assert n * (p * z) == (n * p) * z;
    assert (d * (p * z) + v * z) * m == (d * m * p + v * m) * z by {
      assert d * (p * z) == (d * p) * z;
      assert (d * p) * z + v * z == (d * p + v) * z;
      MulAssoc(d * p + v, z, m);
      assert (d * p + v) * m == d * p * m + v * m;
      MulAssoc(d, p, m);
    }
    CancelFactor(n * p, d * m * p + v * m, z);
  }

  lemma CancelFactor(a: int, b: int, z: nat)
    requires z > 0
    ensures a * z == b * z <==> a == b
  {
    assert a * z - b * z == (a - b) * z;
    SmallMultiple(a - b, z, a * z - b * z);
  }

  /** A multiple of p strictly between -p and p is zero. */
  lemma SmallMultiple(k: int, p: int, r: int)
    requires p > 0 && k * p == r
    ensures -p < r < p ==> k == 0
  {
    if k >= 1 {
      assert k * p >= 1 * p;
    } else if k <= -1 {
      assert (-k) * p >= 1 * p;
      assert (-k) * p == -(k * p);
    }
  }

  lemma Pow10Values()
    ensures Pow10(20) == 100000000000000000000
    ensures Pow10(23) == 100000000000000000000000
    ensures Pow10(28) == 10000000000000000000000000000
  {
    assert Pow10(3) == 1000 && Pow10(5) == 100000;
    Pow10Add(5, 5);
    Pow10Add(10, 10);
    Pow10Add(20, 3);
    Pow10Add(20, 5);
    Pow10Add(25, 3);
  }

  lemma Pow10Limits(k: nat)
    ensures k <= 28 ==> Pow10(k) < U128_LIMIT
    ensures k <= 23 ==> Pow10(k) * PIB < U128_LIMIT
  {
    Pow10Values();
    if k <= 28 { Pow10Monotone(k, 28); }
    if k <= 23 { Pow10Monotone(k, 23); }
  }

  lemma {:induction false} Pow10Monotone(a: nat, b: nat)
    requires a <= b
    ensures Pow10(a) <= Pow10(b)
  {
    if a < b {
      Pow10Monotone(a, b - 1);
    }
  }

  lemma ModOfMultiple(q: int, p: nat)
    requires p > 0
    ensures (q * p) % p == 0 && (q * p) / p == q
  {
    var x := q * p;
    assert x == p * (x / p) + x % p;
    assert (q - x / p) * p == q * p - (x / p) * p;
    SmallMultiple(q - x / p, p, x % p);
  }

  /** What the fraction contributes: e bytes when e is its exact value and it fits. */
  lemma FractionIff(frac: string, multiplier: nat, e: nat)
    requires AllDigits(frac) && multiplier > 0
    ensures var f := DropZeros(frac);
            FractionBytes(frac, multiplier) == Ok(e) <==>
            Fits(f, multiplier) && e * Pow10(|f|) == Value(f) * multiplier
  {
    var f := DropZeros(frac);
    Pow10Limits(|f|);
    AtMostProduct(Value(f), multiplier);
    QuotientIff(Value(f) * multiplier, Pow10(|f|), e);
  }

  lemma QuotientIff(x: nat, p: nat, e: nat)
    requires p > 0
    ensures x % p == 0 && x / p == e <==> e * p == x
  {
    ModOfMultiple(e, p);
  }

  lemma AtMostProduct(v: nat, m: nat)
    requires m > 0
    ensures v <= v * m
  {
  }

  /** The whole promise about numbers: the answer is n exactly when n is the exact value, 64 bits hold it,
      and the fraction fits. */
  lemma EvaluateIff(digits: string, frac: string, multiplier: nat, n: nat)
    requires AllDigits(digits) && AllDigits(frac) && multiplier > 0
    ensures Evaluate(digits, frac, multiplier) == Ok(n) <==>
            Denotes(digits, frac, multiplier, n) && n <= U64_MAX && Fits(DropZeros(frac), multiplier)
  {
    DenotesIff(digits, frac, multiplier, n);
    if Evaluate(digits, frac, multiplier) == Ok(n) {
      EvaluateSound(digits, frac, multiplier, n);
    }
    var f := DropZeros(frac);
    if WholePlusFraction(n, Value(digits) * multiplier, Value(f) * multiplier, Pow10(|f|)) && n <= U64_MAX && Fits(f, multiplier) {
      EvaluateComplete(digits, frac, multiplier, n);
    }
  }

  lemma EvaluateSound(digits: string, frac: string, multiplier: nat, n: nat)
    requires AllDigits(digits) && AllDigits(frac) && multiplier > 0 && Evaluate(digits, frac, multiplier) == Ok(n)
    ensures var f := DropZeros(frac);
            && WholePlusFraction(n, Value(digits) * multiplier, Value(f) * multiplier, Pow10(|f|))
            && n <= U64_MAX && Fits(f, multiplier)
  {
    var e := FractionBytes(frac, multiplier).value;
    FractionIff(frac, multiplier, e);
    TotalIff(Value(digits), multiplier, e, n);
    Distribute(Value(digits) * multiplier, e, Pow10(|DropZeros(frac)|));
  }

  lemma EvaluateComplete(digits: string, frac: string, multiplier: nat, n: nat)
    requires AllDigits(digits) && AllDigits(frac) && multiplier > 0
    requires var f := DropZeros(frac);
             && WholePlusFraction(n, Value(digits) * multiplier, Value(f) * multiplier, Pow10(|f|))
             && n <= U64_MAX && Fits(f, multiplier)
    ensures Evaluate(digits, frac, multiplier) == Ok(n)
  {
    var f := DropZeros(frac);
    var w, x, p := Value(digits) * multiplier, Value(f) * multiplier, Pow10(|f|);
    var e := WholeQuotient(n, w, x, p);
    FractionAccepted(frac, multiplier, f, x, p, e);
    EvaluateSum(digits, frac, multiplier, e, n);
  }

  lemma FractionAccepted(frac: string, multiplier: nat, f: string, x: nat, p: nat, e: nat)
    requires AllDigits(frac) && multiplier > 0 && f == DropZeros(frac) && Fits(f, multiplier)
    requires x == Value(f) * multiplier && p == Pow10(|f|) && e * p == x
    ensures FractionBytes(frac, multiplier) == Ok(e)
  {
    FractionIff(frac, multiplier, e);
  }

  lemma EvaluateSum(digits: string, frac: string, multiplier: nat, e: nat, n: nat)
    requires AllDigits(digits) && AllDigits(frac) && multiplier > 0 && FractionBytes(frac, multiplier) == Ok(e)
    requires Value(digits) * multiplier + e == n <= U64_MAX
    ensures Evaluate(digits, frac, multiplier) == Ok(n)
  {
    TotalIff(Value(digits), multiplier, e, n);
  }

  /** What is left of n after the whole part is the fraction's exact value. */
  lemma WholeQuotient(n: nat, w: nat, x: nat, p: nat) returns (e: nat)
    requires p > 0 && WholePlusFraction(n, w, x, p)
    ensures n == w + e && e * p == x
  {
    Distribute(w, n - w, p);
    NonnegativeFactor(n - w, p);
    e := n - w;
  }

  lemma Distribute(a: int, b: int, p: int)
    ensures (a + b) * p == a * p + b * p
  {
  }

  lemma NonnegativeFactor(k: int, p: int)
    requires p > 0
    ensures k * p >= 0 ==> k >= 0
  {
    if k < 0 { assert k * p <= -1 * p; }
  }

  lemma TotalIff(whole: nat, multiplier: nat, extra: nat, n: nat)
    requires multiplier > 0
    ensures (whole < U128_LIMIT && CheckedTotal(whole, multiplier, extra) == Ok(n)) <==>
            n == whole * multiplier + extra && n <= U64_MAX
  {
    AtMostProduct(whole, multiplier);
  }

  /** The parser on any input: it accepts, with the exact value, iff the text has the shape of a size and
      its value is a whole number of bytes within 64 bits whose fraction fits. */
  lemma ParseIff(input: string, r: Result<nat, Error>, n: nat)
    requires Shape(input).Err? ==> r == Err(Shape(input).error)
    requires Shape(input).Ok? ==> var p := Shape(input).value; r == Evaluate(p.digits, p.frac, p.multiplier)
    ensures r == Ok(n) <==>
            Shape(input).Ok? &&
            (var p := Shape(input).value;
             Denotes(p.digits, p.frac, p.multiplier, n) && n <= U64_MAX && Fits(DropZeros(p.frac), p.multiplier))
  {
    if Shape(input).Ok? {
      var p := Shape(input).value;
      EvaluateIff(p.digits, p.frac, p.multiplier, n);
    }
  }

  /** A fraction of at most 23 significant digits always fits. */
  lemma ShortFractionFits(f: string, multiplier: nat)
    requires AllDigits(f) && |f| <= 23 && multiplier <= PIB
    ensures Fits(f, multiplier)
  {
    ValueBound(f);
    Pow10Limits(|f|);
    ProductMonotone(Value(f), Pow10(|f|), multiplier, PIB);
  }

  lemma ProductMonotone(a: nat, b: nat, m: nat, k: nat)
    requires a <= b && m <= k
    ensures a * m <= b * k
  {
    assert a * m <= b * m;
    assert b * m <= b * k;
  }

  // ---------------------------------------------------------------- where the promise stops

  /** A number between 10^(k-1) and 10^k prints with k digits. */
  lemma {:induction false} DigitsLength(n: nat, k: nat)
    requires k >= 1 && Pow10(k - 1) <= n < Pow10(k)
    ensures |Digits(n)| == k
  {
    if k >= 2 {
      Pow10Monotone(1, k - 1);
      DigitsLength(n / 10, k - 1);
    }
  }

  lemma LastDigitKept(n: nat)
    requires n % 10 == 5
    ensures DropZeros(Digits(n)) == Digits(n)
  {
    var f := Digits(n);
    assert f[|f| - 1] == DigitChar(5);
  }

  /** A 24-digit fraction of a unit, as long as its last digit is 5 and its product overflows, is refused
      whatever it denotes. */
  lemma OverflowRefused(n: nat)
    requires n % 10 == 5 && n * PIB >= U128_LIMIT && |Digits(n)| == 24
    ensures Evaluate("0", Digits(n), PIB) == Err(Overflow)
  {
    LastDigitKept(n);
    ValueOfDigits(n);
    assert Value("0") == 0;
  }

  /** Exact and within 64 bits, yet refused: a numeral whose fraction n has 24 digits, the last a 5, and whose
      128-bit product overflows. */
  ghost predicate RefusedThoughExact(n: nat, multiplier: nat, bytes: nat) {
    && bytes <= U64_MAX && Denotes("0", Digits(n), multiplier, bytes)
    && Evaluate("0", Digits(n), multiplier) == Err(Overflow)
  }

  lemma LongFractionFamily(n: nat, bytes: nat)
    requires 100000000000000000000000 <= n < 1000000000000000000000000 && n % 10 == 5
    requires n * PIB >= U128_LIMIT && bytes * 1000000000000000000000000 == n * PIB && bytes <= U64_MAX
    ensures RefusedThoughExact(n, PIB, bytes)
  {
    TwentyFourDigits(n);
    OverflowRefused(n);
    PointDenotes(n, 24, PIB, bytes);
  }

  /** The limit is real. 24 fraction digits of a petabyte can denote a whole number of bytes, far below
      64 bits, and still be refused: here n is 5^24 * 5100001, and `0.n PiB` is 5100001 * 2^26 bytes. */
  lemma LongFractionRefused()
    ensures RefusedThoughExact(303983747959136962890625, PIB, 342255273508864)
  {
    LongFractionFamily(303983747959136962890625, 342255273508864);
  }

  lemma TwentyFourDigits(n: nat)
    requires 100000000000000000000000 <= n < 1000000000000000000000000
    ensures |Digits(n)| == 24 && Pow10(24) == 1000000000000000000000000
  {
    Pow10Values();
    Pow10Add(23, 1);
    DigitsLength(n, 24);
  }

  lemma PointDenotes(n: nat, k: nat, multiplier: nat, bytes: nat)
    requires |Digits(n)| == k && bytes * Pow10(k) == n * multiplier
    ensures Denotes("0", Digits(n), multiplier, bytes)
  {
    ValueOfDigits(n);
    ValueAppend("0", Digits(n));
    assert Value("0") == 0;
  }

  // ---------------------------------------------------------------- printing and reading back

  /** The printer's exact branches. None where it would round to two decimals. */
  function FormatExact(n: nat): Option<string> {
    if n >= PIB then InUnit(n, PIB, " PiB")
    else if n >= TIB then InUnit(n, TIB, " TiB")
    else if n >= GIB then InUnit(n, GIB, " GiB")
    else if n >= MIB then InUnit(n, MIB, " MiB")
    else if n >= KIB then InUnit(n, KIB, " KiB")
    else Some(Digits(n) + " B")
  }

  function InUnit(n: nat, unit: nat, suffix: string): Option<string>
    requires unit > 0
  {
    if n % unit == 0 then Some(Digits(n / unit) + suffix) else None
  }

  lemma {:induction false} NumberStops(digits: string, rest: string)
    requires AllDigits(digits) && (rest == [] || !InNumber(rest[0]))
    ensures NumberLength(digits + rest) == |digits|
  {
    if digits == [] {
      assert digits + rest == rest;
    } else {
      NumberStops(digits[1..], rest);
      assert (digits + rest)[1..] == digits[1..] + rest;
    }
  }

  lemma {:induction false} NoSpace(s: string)
    requires forall i :: 0 <= i < |s| ==> !IsSpace(s[i])
    ensures FirstSpace(s) == |s|
  {
    if s != [] {
      NoSpace(s[1..]);
    }
  }

  lemma {:induction false} NoPoints(digits: string)
    requires AllDigits(digits)
    ensures Points(digits) == 0
  {
    if digits != [] {
      NoPoints(digits[..|digits| - 1]);
    }
  }

  lemma TrimNothing(s: string)
    requires s != [] && !IsSpace(s[0]) && !IsSpace(s[|s| - 1])
    ensures Trim(s) == s
  {
  }

  /** A unit after one space. */
  lemma UnitShape(suffix: string, unit: string)
    requires |suffix| >= 2 && suffix[0] == ' ' && unit == suffix[1..]
    requires forall i :: 1 <= i < |suffix| ==> !IsSpace(suffix[i])
    ensures TrimStart(suffix) == unit && FirstSpace(unit) == |unit| && Trim(unit[|unit|..]) == []
  {
    assert forall i :: 0 <= i < |unit| ==> unit[i] == suffix[i + 1];
    NoSpace(unit);
    assert TrimStart(unit) == unit;
  }

  /** The shape of a printed size. */
  lemma PrintedShape(digits: string, suffix: string)
    requires digits != [] && AllDigits(digits) && |suffix| >= 2 && suffix[0] == ' '
    requires forall i :: 1 <= i < |suffix| ==> !IsSpace(suffix[i])
    requires UnitMultiplier(suffix[1..]) != 0
    ensures Shape(digits + suffix) == Ok(Parts(digits, [], UnitMultiplier(suffix[1..])))
  {
    var t, unit := digits + suffix, suffix[1..];
    assert t[0] == digits[0] && IsDigit(digits[0]) && t[|t| - 1] == suffix[|suffix| - 1];
    TrimNothing(t);
    NumberStops(digits, suffix);
    NoPoints(digits);
    assert t[..|digits|] == digits && t[|digits|..] == suffix;
    UnitShape(suffix, unit);
    assert unit[..|unit|] == unit && digits[..|digits|] == digits;
  }

  /** Whatever the printer writes without rounding is read back as the same number. */
  lemma FormatParses(n: nat)
    requires n <= U64_MAX && FormatExact(n).Some?
    ensures ReadsBack(FormatExact(n).value, n)
  {
    UnitNames();
    if n >= PIB { InUnitParses(n, PIB, " PiB"); }
    else if n >= TIB { InUnitParses(n, TIB, " TiB"); }
    else if n >= GIB { InUnitParses(n, GIB, " GiB"); }
    else if n >= MIB { InUnitParses(n, MIB, " MiB"); }
    else if n >= KIB { InUnitParses(n, KIB, " KiB"); }
    else { UnitParses(n, 1, " B", n); }
  }

  lemma InUnitParses(n: nat, unit: nat, suffix: string)
    requires n <= U64_MAX && unit > 0 && IsSuffix(suffix, unit)
    ensures InUnit(n, unit, suffix).Some? ==> ReadsBack(InUnit(n, unit, suffix).value, n)
  {
    if n % unit == 0 {
      UnitParses(n / unit, unit, suffix, n);
    }
  }

  ghost predicate ReadsBack(text: string, n: nat) {
    Shape(text).Ok? && (var p := Shape(text).value; Evaluate(p.digits, p.frac, p.multiplier) == Ok(n))
  }

  ghost predicate IsSuffix(suffix: string, unit: nat) {
    && |suffix| >= 2 && suffix[0] == ' ' && UnitMultiplier(suffix[1..]) == unit
    && forall i :: 1 <= i < |suffix| ==> !IsSpace(suffix[i])
  }

  lemma UnitNames()
    ensures IsSuffix(" PiB", PIB) && IsSuffix(" TiB", TIB) && IsSuffix(" GiB", GIB)
    ensures IsSuffix(" MiB", MIB) && IsSuffix(" KiB", KIB) && IsSuffix(" B", 1)
  {
    assert Lower(" PiB"[1..]) == "pib" && Lower(" TiB"[1..]) == "tib" && Lower(" GiB"[1..]) == "gib";
    assert Lower(" MiB"[1..]) == "mib" && Lower(" KiB"[1..]) == "kib" && Lower(" B"[1..]) == "b";
  }

  lemma UnitParses(q: nat, unit: nat, suffix: string, n: nat)
    requires q * unit == n <= U64_MAX && unit > 0 && IsSuffix(suffix, unit)
    ensures ReadsBack(Digits(q) + suffix, n)
  {
    PrintedShape(Digits(q), suffix);
    ValueOfDigits(q);
    EvaluateWhole(Digits(q), unit, n);
  }

  lemma EvaluateWhole(digits: string, unit: nat, n: nat)
    requires AllDigits(digits) && unit > 0 && Value(digits) * unit == n <= U64_MAX
    ensures Evaluate(digits, [], unit) == Ok(n)
  {
    assert digits + [] == digits && Value([]) == 0 && Pow10(0) == 1;
    EvaluateIff(digits, [], unit, n);
  }
}
