/** What units of a size mean, letter by letter, and why a text is refused. */
module ByteSizeUnits {
  import opened Results
  import opened Decimal
  import opened ByteSize
  import opened ByteSizeExact
  import opened ByteSizeText

  // ---------------------------------------------------------------- units

  function Power1024(n: nat): nat { if n == 0 then 1 else 1024 * Power1024(n - 1) }

  /** The unit is this word, in any mixture of small and capital letters. */
  predicate AnyCase(unit: string, word: string) {
    |unit| == |word| && forall i :: 0 <= i < |unit| ==> unit[i] == word[i] || unit[i] as int + 32 == word[i] as int
  }

  lemma LowerWord(unit: string, word: string)
    requires Letters(word)
    ensures AnyCase(unit, word) <==> Lower(unit) == word
  {
    if Lower(unit) == word {
      forall i | 0 <= i < |unit| ensures unit[i] == word[i] || unit[i] as int + 32 == word[i] as int {
        assert Lower(unit)[i] == word[i];
      }
    }
  }

  const PREFIXES: string := "kmgtp"

  /** k, m, g, t and p, alone or followed by b or ib, in any case, are the powers of 1024, in that order; nothing else
      is. */
  lemma PrefixMeans(unit: string, e: nat)
    requires e < 5
    ensures UnitMultiplier(unit) == Power1024(e + 1)
            <==> AnyCase(unit, [PREFIXES[e]]) || AnyCase(unit, [PREFIXES[e], 'b']) || AnyCase(unit, [PREFIXES[e], 'i', 'b'])
  {
    Powers();
    LowerWord(unit, [PREFIXES[e]]);
    LowerWord(unit, [PREFIXES[e], 'b']);
    LowerWord(unit, [PREFIXES[e], 'i', 'b']);
  }

  lemma Powers()
    ensures Power1024(1) == 1024 && Power1024(2) == 1048576 && Power1024(3) == 1073741824
    ensures Power1024(4) == 1099511627776 && Power1024(5) == 1125899906842624
  {
  }

  /** No unit, b, byte and bytes, in any case, are single bytes. */
  lemma BytesMean(unit: string)
    ensures UnitMultiplier(unit) == 1
            <==> unit == "" || AnyCase(unit, "b") || AnyCase(unit, "byte") || AnyCase(unit, "bytes")
  {
    LowerWord(unit, "b");
    LowerWord(unit, "byte");
    LowerWord(unit, "bytes");
    assert Lower(unit) == "" <==> unit == "";
  }

  // ---------------------------------------------------------------- why a text is refused

  /** The refusals that do not look at the unit. Blank texts, texts that start with a minus, numerals with two points,
      and texts that do not start with a digit. */
  lemma EarlyRefusals(input: string)
    ensures Spaces(input) <==> Shape(input) == Err(Empty)
    ensures Trim(input) != [] && Trim(input)[0] == '-' <==> Shape(input) == Err(Negative)
  {
    if Trim(input) == [] { TrimmedAway(input); }
    if Spaces(input) { BlankTrims(input); }
  }

  lemma {:induction false} BlankTrims(s: string)
    requires Spaces(s)
    ensures Trim(s) == []
  {
    if s != [] { BlankTrims(s[1..]); }
  }

  /** A unit that means nothing is named in the refusal, and so is text behind the unit. */
  lemma UnitRefusals(num: string, unit: string, more: string)
    requires num != [] && AllDigits(num) && unit != [] && !InNumber(unit[0])
    requires (forall i :: 0 <= i < |unit| ==> !IsSpace(unit[i]))
    requires more != [] && !IsSpace(more[0]) && !IsSpace(more[|more| - 1])
    ensures UnitMultiplier(unit) == 0 ==> Shape(num + unit) == Err(UnknownUnit(unit))
    ensures Shape(num + (unit + (" " + more))) == Err(TrailingCharacters(more))
  {
    UnitRefused(num, unit, unit, []);
    UnitRefused(num, unit, unit + (" " + more), " " + more);
    TrimBoth(" ", more, []);
    assert " " + more + [] == " " + more;
    assert unit + [] == unit;
  }

  lemma UnitRefused(num: string, unit: string, tail: string, behind: string)
    requires num != [] && AllDigits(num) && unit != [] && !InNumber(unit[0])
    requires (forall i :: 0 <= i < |unit| ==> !IsSpace(unit[i]))
    requires tail == unit + behind && !IsSpace(tail[|tail| - 1]) && (behind != [] ==> IsSpace(behind[0]))
    ensures Trim(behind) != [] ==> Shape(num + tail) == Err(TrailingCharacters(Trim(behind)))
    ensures behind == [] && UnitMultiplier(unit) == 0 ==> Shape(num + tail) == Err(UnknownUnit(unit))
  {
    var t := num + tail;
    assert t[0] == num[0] && t[|t| - 1] == tail[|tail| - 1];
    assert IsDigit(num[0]) && !IsSpace(num[0]);
    TrimNothing(t);
    assert forall i :: 0 <= i < |num| ==> InNumber(num[i]);
    assert tail[0] == unit[0];
    NumberEnds(num, tail);
    NoPoints(num);
    assert t[..|num|] == num && t[|num|..] == tail;
    SkipSpaces([], tail);
    assert [] + tail == tail;
    SpaceAfter(unit, behind);
    assert tail[..|unit|] == unit && tail[|unit|..] == behind;
    RefusedAs(t, num, tail, unit, behind);
  }

  lemma RefusedAs(t: string, num: string, tail: string, unit: string, behind: string)
    requires num != [] && Trim(t) == t && t != [] && t[0] != '-' && NumberLength(t) == |num| && t[..|num|] == num && t[|num|..] == tail
    requires Points(num) == 0 && HasDigit(num) && TrimStart(tail) == tail && FirstSpace(tail) == |unit| <= |tail|
    requires tail[..|unit|] == unit && tail[|unit|..] == behind
    ensures Trim(behind) != [] ==> Shape(t) == Err(TrailingCharacters(Trim(behind)))
    ensures Trim(behind) == [] && UnitMultiplier(unit) == 0 ==> Shape(t) == Err(UnknownUnit(unit))
  {
  }

  lemma {:induction false} SpaceAfter(unit: string, behind: string)
    requires (forall i :: 0 <= i < |unit| ==> !IsSpace(unit[i])) && (behind != [] ==> IsSpace(behind[0]))
    ensures FirstSpace(unit + behind) == |unit|
  {
    if unit == [] {
      assert unit + behind == behind;
    } else {
      SpaceAfter(unit[1..], behind);
      assert (unit + behind)[1..] == unit[1..] + behind;
    }
  }

  /** A numeral that starts with its point is refused whatever follows. */
  lemma PointFirst(frac: string, unit: string)
    requires AllDigits(frac) && frac != [] && UnitMultiplier(unit) != 0
    ensures Shape("." + frac + unit) == Err(MissingNumber)
  {
    var num := "." + frac;
    var t := num + unit;
    UnitChars(unit);
    assert t == "." + frac + unit && t[0] == '.';
    assert num[1] == frac[0] && IsDigit(num[1]);
    assert t[|t| - 1] == if unit == [] then frac[|frac| - 1] else unit[|unit| - 1];
    TrimNothing(t);
    NumberEnds(num, unit);
    PointsOfPoint(frac);
    assert t[..|num|] == num && t[|num|..] == unit;
    BehindTheNumeral([], unit, unit);
    PointIsFirst(t, num, unit);
  }

  lemma PointsOfPoint(frac: string)
    requires AllDigits(frac)
    ensures Points("." + frac) == 1
  {
    PointsAppend(".", frac);
    assert "."[..0] == [];
    assert Points(".") == Points("."[..0]) + 1;
  }

  lemma PointIsFirst(t: string, num: string, unit: string)
    requires Trim(t) == t && t != [] && t[0] == '.' && num != [] && num[0] == '.' && NumberLength(t) == |num|
    requires t[..|num|] == num && t[|num|..] == unit && Points(num) == 1 && HasDigit(num)
    requires TrimStart(unit) == unit && FirstSpace(unit) == |unit| && unit[..|unit|] == unit && Trim(unit[|unit|..]) == []
    requires UnitMultiplier(unit) != 0
    ensures Shape(t) == Err(MissingNumber)
  {
  }

  /** Two points make no number. */
  lemma TwoPoints(num: string, rest: string)
    requires NumberChars(num) && num != [] && Points(num) > 1 && (rest == [] || !InNumber(rest[0]))
    requires rest == [] || !IsSpace(rest[|rest| - 1])
    ensures Shape(num + rest) == Err(InvalidNumber)
  {
    var t := num + rest;
    assert t[0] == num[0] && t[|t| - 1] == if rest == [] then num[|num| - 1] else rest[|rest| - 1];
    TrimNothing(t);
    NumberEnds(num, rest);
    assert t[..|num|] == num;
  }

  // ---------------------------------------------------------------- why a number is refused

  /** A number of which all the steps fit is refused for not being whole exactly when it is none. */
  lemma FractionalIff(digits: string, frac: string, multiplier: nat)
    requires AllDigits(digits) && AllDigits(frac) && multiplier > 0
    requires Value(digits) < U128_LIMIT && Fits(DropZeros(frac), multiplier)
    ensures Evaluate(digits, frac, multiplier) == Err(FractionalByte) <==> forall n :: !Denotes(digits, frac, multiplier, n)
  {
    var f := DropZeros(frac);
    Pow10Limits(|f|);
    AtMostProduct(Value(f), multiplier);
    if Evaluate(digits, frac, multiplier) == Err(FractionalByte) {
      forall n ensures !Denotes(digits, frac, multiplier, n) { NotWhole(digits, frac, multiplier, n); }
    } else {
      var e := (Value(f) * multiplier) / Pow10(|f|);
      QuotientIff(Value(f) * multiplier, Pow10(|f|), e);
      var n := Value(digits) * multiplier + e;
      Distribute(Value(digits) * multiplier, e, Pow10(|f|));
      DenotesIff(digits, frac, multiplier, n);
    }
  }

  lemma NotWhole(digits: string, frac: string, multiplier: nat, n: nat)
    requires AllDigits(digits) && AllDigits(frac) && multiplier > 0
    requires Evaluate(digits, frac, multiplier) == Err(FractionalByte) && Fits(DropZeros(frac), multiplier)
    ensures !Denotes(digits, frac, multiplier, n)
  {
    var f := DropZeros(frac);
    DenotesIff(digits, frac, multiplier, n);
    if WholePlusFraction(n, Value(digits) * multiplier, Value(f) * multiplier, Pow10(|f|)) {
      var e := WholeQuotient(n, Value(digits) * multiplier, Value(f) * multiplier, Pow10(|f|));
      FractionIff(frac, multiplier, e);
    }
  }
}
