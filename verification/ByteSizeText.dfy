/** Which texts are sizes: spaces, a numeral, spaces, a known unit, spaces. */
module ByteSizeText {
  import opened Results
  import opened Decimal
  import opened ByteSize
  import opened ByteSizeExact

  /** How a size is written. */
  datatype Layout = Layout(lead: string, digits: string, pointed: bool, frac: string, gap: string, unit: string,
                           tail: string)

  ghost predicate Spaces(s: string) { forall i :: 0 <= i < |s| ==> IsSpace(s[i]) }

  function Numeral(digits: string, pointed: bool, frac: string): string {
    if pointed then digits + "." + frac else digits
  }

  /** The input is written this way, and these are its parts. */
  ghost predicate Written(w: Layout, input: string, p: Parts) {
    && input == w.lead + (Numeral(w.digits, w.pointed, w.frac) + (w.gap + w.unit)) + w.tail
    && Spaces(w.lead) && Spaces(w.gap) && Spaces(w.tail)
    && w.digits != [] && AllDigits(w.digits) && AllDigits(w.frac) && (w.pointed || w.frac == [])
    && UnitMultiplier(w.unit) != 0
    && p == Parts(w.digits, w.frac, UnitMultiplier(w.unit))
  }

  // ---------------------------------------------------------------- white space

  lemma {:induction false} TrimStartSplit(s: string) returns (lead: string)
    ensures s == lead + TrimStart(s) && Spaces(lead)
  {
    if s != [] && IsSpace(s[0]) {
      lead := TrimStartSplit(s[1..]);
      lead := [s[0]] + lead;
    } else {
      lead := [];
    }
  }

  lemma {:induction false} TrimEndSplit(s: string) returns (tail: string)
    ensures s == TrimEnd(s) + tail && Spaces(tail)
  {
    if s != [] && IsSpace(s[|s| - 1]) {
      tail := TrimEndSplit(s[..|s| - 1]);
      tail := tail + [s[|s| - 1]];
    } else {
      tail := [];
    }
  }

  lemma TrimSplit(s: string) returns (lead: string, tail: string)
    ensures s == lead + Trim(s) + tail && Spaces(lead) && Spaces(tail)
  {
    lead := TrimStartSplit(s);
    tail := TrimEndSplit(TrimStart(s));
  }

  lemma TrimmedAway(s: string)
    requires Trim(s) == []
    ensures Spaces(s)
  {
    var lead, tail := TrimSplit(s);
  }

  lemma {:induction false} SkipSpaces(lead: string, s: string)
    requires Spaces(lead) && (s == [] || !IsSpace(s[0]))
    ensures TrimStart(lead + s) == s
  {
    if lead == [] {
      assert lead + s == s;
    } else {
      SkipSpaces(lead[1..], s);
      assert (lead + s)[1..] == lead[1..] + s;
    }
  }

  lemma {:induction false} DropSpaces(s: string, tail: string)
    requires Spaces(tail) && (s == [] || !IsSpace(s[|s| - 1]))
    ensures TrimEnd(s + tail) == s
  {
    if tail == [] {
      assert s + tail == s;
    } else {
      DropSpaces(s, tail[..|tail| - 1]);
      assert (s + tail)[..|s + tail| - 1] == s + tail[..|tail| - 1];
    }
  }

  lemma TrimBoth(lead: string, s: string, tail: string)
    requires Spaces(lead) && Spaces(tail) && s != [] && !IsSpace(s[0]) && !IsSpace(s[|s| - 1])
    ensures Trim(lead + s + tail) == s
  {
    assert (s + tail)[0] == s[0];
    SkipSpaces(lead, s + tail);
    assert lead + s + tail == lead + (s + tail);
    DropSpaces(s, tail);
  }

  // ---------------------------------------------------------------- numerals

  ghost predicate NumberChars(s: string) { forall i :: 0 <= i < |s| ==> InNumber(s[i]) }

  lemma {:induction false} NumberEnds(num: string, rest: string)
    requires NumberChars(num) && (rest == [] || !InNumber(rest[0]))
    ensures NumberLength(num + rest) == |num|
  {
    if num == [] {
      assert num + rest == rest;
    } else {
      NumberEnds(num[1..], rest);
      assert (num + rest)[1..] == num[1..] + rest;
    }
  }

  lemma {:induction false} PointsAppend(digits: string, frac: string)
    requires AllDigits(frac)
    ensures Points(digits + frac) == Points(digits)
  {
    if frac == [] {
      assert digits + frac == digits;
    } else {
      PointsAppend(digits, frac[..|frac| - 1]);
      assert (digits + frac)[..|digits + frac| - 1] == digits + frac[..|frac| - 1];
    }
  }

  lemma {:induction false} PointAfter(digits: string, rest: string)
    requires AllDigits(digits) && (rest == [] || rest[0] == '.')
    ensures PointAt(digits + rest) == |digits|
  {
    if digits == [] {
      assert digits + rest == rest;
    } else {
      PointAfter(digits[1..], rest);
      assert (digits + rest)[1..] == digits[1..] + rest;
    }
  }

  lemma OnePoint(digits: string)
    requires AllDigits(digits)
    ensures Points(digits) == 0 && Points(digits + ".") == 1
  {
    NoPoints(digits);
    assert (digits + ".")[..|digits|] == digits;
  }

  /** A numeral is scanned whole and falls into its parts. */
  lemma NumeralScan(digits: string, pointed: bool, frac: string)
    requires digits != [] && AllDigits(digits) && AllDigits(frac) && (pointed || frac == [])
    ensures var num := Numeral(digits, pointed, frac);
            && NumberChars(num) && Points(num) <= 1 && HasDigit(num) && |num| >= |digits|
            && num[..|digits|] == digits && PointAt(num) == |digits|
            && (if |digits| == |num| then frac == [] else num[|digits| + 1..] == frac)
  {
    var num := Numeral(digits, pointed, frac);
    OnePoint(digits);
    assert num[0] == digits[0];
    if pointed {
      PointsAppend(digits + ".", frac);
      PointAfter(digits, "." + frac);
      assert num == digits + ("." + frac);
    } else {
      PointAfter(digits, []);
      assert digits + [] == digits;
    }
  }

  /** Parts read off a numeral write it again. */
  lemma NumeralOf(num: string, digits: string, pointed: bool, frac: string)
    requires var p := PointAt(num);
             digits == num[..p] && pointed == (p < |num|) && frac == if p == |num| then [] else num[p + 1..]
    ensures num == Numeral(digits, pointed, frac)
  {
    var p := PointAt(num);
    if p < |num| { CutAt(num, p); }
  }

  lemma CutAt(s: string, p: nat)
    requires p < |s| && s[p] == '.'
    ensures s == s[..p] + "." + s[p + 1..]
  {
  }

  // ---------------------------------------------------------------- units

  predicate IsLetter(c: char) { 'a' <= c <= 'z' }

  ghost predicate Letters(s: string) { forall i :: 0 <= i < |s| ==> IsLetter(s[i]) }

  lemma KnownUnit(unit: string)
    requires UnitMultiplier(unit) != 0
    ensures Letters(Lower(unit))
  {
  }

  lemma LetterIsNeither(c: char, lower: char)
    requires lower == (if 'A' <= c <= 'Z' then (c as int + 32) as char else c) && IsLetter(lower)
    ensures !IsSpace(c) && !InNumber(c)
  {
  }

  lemma UnitChars(unit: string)
    requires UnitMultiplier(unit) != 0
    ensures forall i :: 0 <= i < |unit| ==> !IsSpace(unit[i]) && !InNumber(unit[i])
  {
    KnownUnit(unit);
    forall i | 0 <= i < |unit| ensures !IsSpace(unit[i]) && !InNumber(unit[i]) {
      LetterIsNeither(unit[i], Lower(unit)[i]);
    }
  }

  // ---------------------------------------------------------------- from the text to its shape

  /** The text between the outer spaces. */
  function Core(w: Layout): string {
    Numeral(w.digits, w.pointed, w.frac) + if w.unit == [] then [] else w.gap + w.unit
  }

  lemma NumeralEnds(w: Layout, input: string, p: Parts)
    requires Written(w, input, p)
    ensures var num := Numeral(w.digits, w.pointed, w.frac);
            num != [] && IsDigit(num[0]) && InNumber(num[|num| - 1])
  {
    NumeralScan(w.digits, w.pointed, w.frac);
  }

  lemma CoreTrimmed(w: Layout, input: string, p: Parts)
    requires Written(w, input, p)
    ensures Trim(input) == Core(w) && Core(w) != [] && IsDigit(Core(w)[0])
  {
    var num, core := Numeral(w.digits, w.pointed, w.frac), Core(w);
    NumeralEnds(w, input, p);
    UnitChars(w.unit);
    NumberIsNoSpace(num);
    assert core[0] == num[0];
    if w.unit == [] {
      assert input == w.lead + core + (w.gap + w.tail);
      TrimBoth(w.lead, core, w.gap + w.tail);
    } else {
      assert core[|core| - 1] == w.unit[|w.unit| - 1];
      assert input == w.lead + core + w.tail;
      TrimBoth(w.lead, core, w.tail);
    }
  }

  lemma NumberIsNoSpace(num: string)
    requires num != [] && IsDigit(num[0]) && InNumber(num[|num| - 1])
    ensures !IsSpace(num[0]) && !IsSpace(num[|num| - 1])
  {
  }

  lemma SpaceIsNoNumber(s: string)
    requires Spaces(s) && s != []
    ensures !InNumber(s[0])
  {
  }

  /** Behind the numeral stands the unit alone. */
  lemma BehindTheNumeral(gap: string, unit: string, rest: string)
    requires Spaces(gap) && UnitMultiplier(unit) != 0 && rest == if unit == [] then [] else gap + unit
    ensures (rest == [] || !InNumber(rest[0])) && TrimStart(rest) == unit
    ensures FirstSpace(unit) == |unit| && unit[..|unit|] == unit && Trim(unit[|unit|..]) == []
  {
    UnitChars(unit);
    NoSpace(unit);
    SkipSpaces(gap, unit);
    if gap != [] {
      SpaceIsNoNumber(gap);
    } else {
      assert gap + unit == unit;
    }
  }

  lemma WrittenHasShape(w: Layout, input: string, p: Parts)
    requires Written(w, input, p)
    ensures Shape(input) == Ok(p)
  {
    var num, t := Numeral(w.digits, w.pointed, w.frac), Core(w);
    var rest := t[|num|..];
    CoreTrimmed(w, input, p);
    NumeralScan(w.digits, w.pointed, w.frac);
    assert rest == if w.unit == [] then [] else w.gap + w.unit;
    BehindTheNumeral(w.gap, w.unit, rest);
    assert t == num + rest;
    NumberEnds(num, rest);
    ShapeOf(input, t, num, rest, w.unit, p);
  }

  lemma ShapeOf(input: string, t: string, num: string, rest: string, unit: string, p: Parts)
    requires t == Trim(input) == num + rest && t != [] && t[0] != '-' && NumberLength(t) == |num|
    requires Points(num) <= 1 && HasDigit(num)
    requires TrimStart(rest) == unit && FirstSpace(unit) == |unit| && unit[..|unit|] == unit && Trim(unit[|unit|..]) == []
    requires UnitMultiplier(unit) == p.multiplier != 0
    requires PointAt(num) == |p.digits| != 0 && num[..|p.digits|] == p.digits
    requires if |p.digits| == |num| then p.frac == [] else num[|p.digits| + 1..] == p.frac
    ensures Shape(input) == Ok(p)
  {
    assert t[..|num|] == num && t[|num|..] == rest;
  }

  // ---------------------------------------------------------------- from the shape to the text

  lemma ShapeTaken(input: string, p: Parts, t: string, num: string, rest: string, unit: string, trailing: string)
    requires Shape(input) == Ok(p) && t == Trim(input) && num == t[..NumberLength(t)] && rest == TrimStart(t[|num|..])
    requires unit == rest[..FirstSpace(rest)] && trailing == rest[FirstSpace(rest)..]
    ensures Trim(trailing) == [] && p.multiplier == UnitMultiplier(unit) != 0
    ensures AllDigits(p.digits) && AllDigits(p.frac)
    ensures var at := PointAt(num);
            at != 0 && p.digits == num[..at] && p.frac == if at == |num| then [] else num[at + 1..]
  {
  }

  lemma BehindSplit(behind: string) returns (gap: string, unit: string, trailing: string)
    ensures behind == gap + unit + trailing && Spaces(gap)
    ensures var rest := TrimStart(behind); unit == rest[..FirstSpace(rest)] && trailing == rest[FirstSpace(rest)..]
  {
    var rest := TrimStart(behind);
    gap := TrimStartSplit(behind);
    unit, trailing := rest[..FirstSpace(rest)], rest[FirstSpace(rest)..];
    assert rest == unit + trailing;
  }

  lemma NumberSplit(t: string) returns (num: string, behind: string)
    ensures t == num + behind && num == t[..NumberLength(t)] && behind == t[|num|..]
  {
    num, behind := t[..NumberLength(t)], t[NumberLength(t)..];
  }

  lemma ShapeIsWritten(input: string, p: Parts) returns (w: Layout)
    requires Shape(input) == Ok(p)
    ensures Written(w, input, p)
  {
    var t := Trim(input);
    var num, behind := NumberSplit(t);
    var lead, tail := TrimSplit(input);
    var gap, unit, trailing := BehindSplit(behind);
    ShapeTaken(input, p, t, num, TrimStart(behind), unit, trailing);
    TrimmedAway(trailing);
    w := LayoutOf(input, p, lead, t, tail, num, behind, gap, unit, trailing);
  }

  lemma LayoutOf(input: string, p: Parts, lead: string, t: string, tail: string, num: string, behind: string,
                 gap: string, unit: string, trailing: string) returns (w: Layout)
    requires input == lead + t + tail && t == num + behind && behind == gap + unit + trailing
    requires Spaces(lead) && Spaces(gap) && Spaces(trailing) && Spaces(tail)
    requires AllDigits(p.digits) && AllDigits(p.frac) && p.multiplier == UnitMultiplier(unit) != 0
    requires var at := PointAt(num);
             at != 0 && p.digits == num[..at] && p.frac == if at == |num| then [] else num[at + 1..]
    ensures Written(w, input, p)
  {
    var pointed := PointAt(num) < |num|;
    NumeralOf(num, p.digits, pointed, p.frac);
    w := Layout(lead, p.digits, pointed, p.frac, gap, unit, trailing + tail);
    Reassemble(input, lead, t, tail, num, behind, gap, unit, trailing);
    JoinSpaces(trailing, tail);
    WrittenAs(w, input, p, num);
  }

  lemma JoinSpaces(a: string, b: string)
    requires Spaces(a) && Spaces(b)
    ensures Spaces(a + b)
  {
  }

  lemma Reassemble(input: string, lead: string, t: string, tail: string, num: string, behind: string, gap: string,
                   unit: string, trailing: string)
    requires input == lead + t + tail && t == num + behind && behind == gap + unit + trailing
    ensures input == lead + (num + (gap + unit)) + (trailing + tail)
  {
  }

  lemma WrittenAs(w: Layout, input: string, p: Parts, num: string)
    requires num == Numeral(w.digits, w.pointed, w.frac) && input == w.lead + (num + (w.gap + w.unit)) + w.tail
    requires Spaces(w.lead) && Spaces(w.gap) && Spaces(w.tail)
    requires w.digits != [] && AllDigits(w.digits) && AllDigits(w.frac) && (w.pointed || w.frac == [])
    requires UnitMultiplier(w.unit) != 0 && p == Parts(w.digits, w.frac, UnitMultiplier(w.unit))
    ensures Written(w, input, p)
  {
  }

  /** A text has the shape of a size, with these parts, exactly when it is written as one. */
  lemma ShapeIff(input: string, p: Parts)
    ensures Shape(input) == Ok(p) <==> exists w :: Written(w, input, p)
  {
    if Shape(input) == Ok(p) { var w := ShapeIsWritten(input, p); }
    forall w | Written(w, input, p) ensures Shape(input) == Ok(p) { WrittenHasShape(w, input, p); }
  }

  /** The text is written as a size of exactly n bytes, which 64 bits hold and whose fraction fits. */
  ghost predicate SizeText(w: Layout, p: Parts, input: string, n: nat) {
    && Written(w, input, p)
    && Denotes(p.digits, p.frac, p.multiplier, n) && n <= U64_MAX && Fits(DropZeros(p.frac), p.multiplier)
  }

  /** The parser's answer to any text, in terms of how the text is written. */
  lemma ParseTextIff(input: string, r: Result<nat, Error>, n: nat)
    requires Shape(input).Err? ==> r == Err(Shape(input).error)
    requires Shape(input).Ok? ==> var p := Shape(input).value; r == Evaluate(p.digits, p.frac, p.multiplier)
    ensures r == Ok(n) <==> exists w, p :: SizeText(w, p, input, n)
  {
    ParseIff(input, r, n);
    if r == Ok(n) {
      var p := Shape(input).value;
      var w := ShapeIsWritten(input, p);
      assert SizeText(w, p, input, n);
    }
    forall w, p | SizeText(w, p, input, n) ensures r == Ok(n) { WrittenHasShape(w, input, p); }
  }

  // ---------------------------------------------------------------- the refused text

  lemma DigitsPush(n: nat, d: nat)
    requires n > 0 && d < 10
    ensures Digits(10 * n + d) == Digits(n) + [DigitChar(d)]
  {
  }

  /** A numeral without a leading zero is what its value prints as. */
  lemma {:induction false} DigitsOfValue(s: string)
    requires s != [] && AllDigits(s) && s[0] != '0'
    ensures Digits(Value(s)) == s && Value(s) > 0
  {
    var k := |s| - 1;
    assert s == s[..k] + [s[k]];
    CharOfValue(s[k]);
    if k == 0 {
      assert Value(s[..0]) == 0;
    } else {
      DigitsOfValue(s[..k]);
      DigitsPush(Value(s[..k]), DigitValue(s[k]));
    }
  }

  lemma CharOfValue(c: char)
    requires IsDigit(c)
    ensures DigitChar(DigitValue(c)) == c && (DigitValue(c) == 0 ==> c == '0')
  {
  }

  /** The text is a numeral of this value. */
  ghost predicate Reads(s: string, n: nat) { AllDigits(s) && Value(s) == n }

  lemma ReadsMore(s: string, k: nat, n: nat, more: nat)
    requires k < |s| && Reads(s[..k], n) && IsDigit(s[k]) && more == 10 * n + DigitValue(s[k])
    ensures Reads(s[..k + 1], more)
  {
    assert s[..k + 1][..k] == s[..k];
  }

  lemma ReadsJoined(a: string, b: string, m: nat, n: nat, p: nat)
    requires Reads(a, m) && Reads(b, n) && p == Pow10(|b|)
    ensures Reads(a + b, m * p + n)
  {
    ValueAppend(a, b);
  }

  lemma ReadsSix(s: string, n1: nat, n2: nat, n3: nat, n4: nat, n5: nat, n: nat)
    requires |s| == 6 && AllDigits(s)
    requires n1 == DigitValue(s[0]) && n2 == 10 * n1 + DigitValue(s[1]) && n3 == 10 * n2 + DigitValue(s[2])
    requires n4 == 10 * n3 + DigitValue(s[3]) && n5 == 10 * n4 + DigitValue(s[4]) && n == 10 * n5 + DigitValue(s[5])
    ensures Reads(s, n)
  {
    assert Reads(s[..0], 0);
    ReadsMore(s, 0, 0, n1);
    ReadsMore(s, 1, n1, n2);
    ReadsMore(s, 2, n2, n3);
    ReadsMore(s, 3, n3, n4);
    ReadsMore(s, 4, n4, n5);
    ReadsMore(s, 5, n5, n);
    assert s[..6] == s;
  }

  lemma FirstTwelve()
    ensures Reads("303983747959", 303983747959)
  {
    ReadsSix("303983", 3, 30, 303, 3039, 30398, 303983);
    ReadsSix("747959", 7, 74, 747, 7479, 74795, 747959);
    assert Pow10(6) == 1000000;
    ReadsJoined("303983", "747959", 303983, 747959, 1000000);
    assert "303983" + "747959" == "303983747959";
  }

  lemma LastTwelve()
    ensures Reads("136962890625", 136962890625)
  {
    ReadsSix("136962", 1, 13, 136, 1369, 13696, 136962);
    ReadsSix("890625", 8, 89, 890, 8906, 89062, 890625);
    assert Pow10(6) == 1000000;
    ReadsJoined("136962", "890625", 136962, 890625, 1000000);
    assert "136962" + "890625" == "136962890625";
  }

  const LONG_DIGITS: string := "303983747959136962890625"
  const LONG: string := "0." + LONG_DIGITS + " PiB"

  lemma LongRead()
    ensures Reads(LONG_DIGITS, 303983747959136962890625)
  {
    FirstTwelve();
    LastTwelve();
    assert Pow10(6) == 1000000;
    Pow10Add(6, 6);
    ReadsJoined("303983747959", "136962890625", 303983747959, 136962890625, 1000000000000);
    assert "303983747959" + "136962890625" == LONG_DIGITS;
  }

  lemma LongDigits()
    ensures AllDigits(LONG_DIGITS) && Digits(303983747959136962890625) == LONG_DIGITS
  {
    LongRead();
    DigitsOfValue(LONG_DIGITS);
  }

  lemma LongIsWritten(w: Layout)
    requires w == Layout([], "0", true, LONG_DIGITS, " ", "PiB", [])
    ensures LONG == w.lead + (Numeral(w.digits, w.pointed, w.frac) + (w.gap + w.unit)) + w.tail
  {
    assert "0" + "." == "0." && " " + "PiB" == " PiB";
  }

  lemma LongShape(f: string)
    requires f == LONG_DIGITS && AllDigits(f)
    ensures Shape(LONG) == Ok(Parts("0", f, PIB))
  {
    var w := Layout([], "0", true, f, " ", "PiB", []);
    LongIsWritten(w);
    WholeUnit();
    OuterSpaces();
    WrittenAs(w, LONG, Parts("0", f, PIB), Numeral(w.digits, w.pointed, w.frac));
    WrittenHasShape(w, LONG, Parts("0", f, PIB));
  }

  lemma WholeUnit()
    ensures UnitMultiplier("PiB") == PIB
  {
    assert Lower("PiB") == "pib";
  }

  lemma OuterSpaces()
    ensures Spaces(" ") && Spaces([]) && AllDigits("0")
  {
  }

  /** This text is written as a size of 342255273508864 bytes, and the parser refuses it as too large. */
  lemma LongTextRefused(r: Result<nat, Error>)
    requires Shape(LONG).Err? ==> r == Err(Shape(LONG).error)
    requires Shape(LONG).Ok? ==> var p := Shape(LONG).value; r == Evaluate(p.digits, p.frac, p.multiplier)
    ensures r == Err(Overflow)
    ensures exists w, p :: Written(w, LONG, p) && Denotes(p.digits, p.frac, p.multiplier, 342255273508864)
  {
    LongDigits();
    LongShape(LONG_DIGITS);
    LongFractionRefused();
    var p := Shape(LONG).value;
    var w := ShapeIsWritten(LONG, p);
    assert Written(w, LONG, p) && Denotes(p.digits, p.frac, p.multiplier, 342255273508864);
  }
}
