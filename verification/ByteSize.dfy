/** Byte sizes as text: the strict decimal parser and the exact branches of the printer.

    Characters are code points, and positions count characters. 128-bit and 64-bit limits are explicit. */
module ByteSize {
  import opened Results
  import opened Decimal

  const KIB: nat := 1024
  const MIB: nat := 1024 * KIB
  const GIB: nat := 1024 * MIB
  const TIB: nat := 1024 * GIB
  const PIB: nat := 1024 * TIB
  const U64_MAX: nat := 0xFFFF_FFFF_FFFF_FFFF
  const U128_LIMIT: nat := 0x1_0000_0000_0000_0000_0000_0000_0000_0000

  datatype Error =
    | Empty | MissingNumber | InvalidNumber | Negative | FractionalByte | Overflow
    | UnknownUnit(unit: string) | TrailingCharacters(trailing: string)

  /** Unicode white space. */
  predicate IsSpace(c: char) {
    var n := c as int;
    || 0x09 <= n <= 0x0D || n == 0x20 || n == 0x85 || n == 0xA0 || n == 0x1680 || 0x2000 <= n <= 0x200A
    || n == 0x2028 || n == 0x2029 || n == 0x202F || n == 0x205F || n == 0x3000
  }

  function TrimStart(s: string): string {
    if s != [] && IsSpace(s[0]) then TrimStart(s[1..]) else s
  }

  function TrimEnd(s: string): string {
    if s != [] && IsSpace(s[|s| - 1]) then TrimEnd(s[..|s| - 1]) else s
  }

  function Trim(s: string): string { TrimEnd(TrimStart(s)) }

  /** Characters before the first white space. */
  function FirstSpace(s: string): (k: nat)
    ensures k <= |s| && forall i :: 0 <= i < k ==> !IsSpace(s[i])
    ensures k < |s| ==> IsSpace(s[k])
  {
    if s == [] || IsSpace(s[0]) then 0 else 1 + FirstSpace(s[1..])
  }

  predicate InNumber(c: char) { IsDigit(c) || c == '.' }

  /** Length of the longest prefix of digits and points. */
  function NumberLength(s: string): (k: nat)
    ensures k <= |s| && forall i :: 0 <= i < k ==> InNumber(s[i])
    ensures k < |s| ==> !InNumber(s[k])
  {
    if s == [] || !InNumber(s[0]) then 0 else 1 + NumberLength(s[1..])
  }

  function Points(s: string): nat {
    if s == [] then 0 else Points(s[..|s| - 1]) + if s[|s| - 1] == '.' then 1 else 0
  }

  ghost predicate HasDigit(s: string) {
    exists i :: 0 <= i < |s| && IsDigit(s[i])
  }

  /** The scan for the numeric part: its length, unless it has a second point or no digit. */
  method ScanNumber(s: string) returns (r: Result<nat, Error>)
    ensures var num := s[..NumberLength(s)];
            r == if Points(num) > 1 then Err(InvalidNumber)
                 else if !HasDigit(num) then Err(MissingNumber)
                 else Ok(NumberLength(s))
  {
    ghost var n := NumberLength(s);
    var splitIdx := 0;
    var hasDigits, hasDot := false, false;
    var i := 0;
    while i < |s|
      invariant 0 <= i <= n && splitIdx == i
      invariant hasDigits <==> HasDigit(s[..i])
      invariant Points(s[..i]) == if hasDot then 1 else 0
    {
      assert s[..i + 1][..i] == s[..i];
      if IsDigit(s[i]) {
        assert InNumber(s[i]) && i < n;
        hasDigits := true;
        splitIdx := i + 1;
        assert IsDigit(s[..i + 1][i]);
      } else if s[i] == '.' {
        assert InNumber(s[i]) && i < n;
        if hasDot {
          PointsMonotone(s, i + 1, n);
          return Err(InvalidNumber);
        }
        hasDot := true;
        splitIdx := i + 1;
      } else {
        break;
      }
      i := i + 1;
    }
    assert splitIdx == n;
    r := if !hasDigits then Err(MissingNumber) else Ok(splitIdx);
  }

  lemma {:induction false} PointsMonotone(s: string, i: nat, j: nat)
    requires i <= j <= |s|
    ensures Points(s[..i]) <= Points(s[..j])
  {
    if i < j {
      PointsMonotone(s, i, j - 1);
      assert s[..j][..j - 1] == s[..j - 1];
    }
  }

  /** Where the first point is, or the length. */
  function PointAt(s: string): (k: nat)
    ensures k <= |s| && forall i :: 0 <= i < k ==> s[i] != '.'
    ensures k < |s| ==> s[k] == '.'
  {
    if s == [] || s[0] == '.' then 0 else 1 + PointAt(s[1..])
  }

  function Lower(s: string): string {
    seq(|s|, i requires 0 <= i < |s| => if 'A' <= s[i] <= 'Z' then (s[i] as int + 32) as char else s[i])
  }

  /** Bytes per unit; 0 for an unknown unit. */
  function UnitMultiplier(unit: string): (m: nat)
    ensures m in {0, 1, KIB, MIB, GIB, TIB, PIB}
  {
    var l := Lower(unit);
    if l in {"", "b", "bytes", "byte"} then 1
    else if l in {"k", "kb", "kib"} then KIB
    else if l in {"m", "mb", "mib"} then MIB
    else if l in {"g", "gb", "gib"} then GIB
    else if l in {"t", "tb", "tib"} then TIB
    else if l in {"p", "pb", "pib"} then PIB
    else 0
  }

  function DropZeros(s: string): (r: string)
    ensures r <= s
    ensures r != [] ==> r[|r| - 1] != '0'
    ensures forall i :: |r| <= i < |s| ==> s[i] == '0'
  {
    if s != [] && s[|s| - 1] == '0' then DropZeros(s[..|s| - 1]) else s
  }

  /** Digits read into 128 bits. */
  function ParseU128(s: string): Result<nat, Error>
    requires AllDigits(s)
  {
    if Value(s) < U128_LIMIT then Ok(Value(s)) else Err(Overflow)
  }

  /** The bytes of the fractional part, computed in 128 bits. */
  function FractionBytes(frac: string, multiplier: nat): Result<nat, Error>
    requires AllDigits(frac)
  {
    var f := DropZeros(frac);
    if f == [] then Ok(0)
    else if |f| > 28 then Err(FractionalByte)
    else
      var v := ParseU128(f);
      if v.Err? then v
      else if Pow10(|f|) >= U128_LIMIT then Err(Overflow)
      else if v.value * multiplier >= U128_LIMIT then Err(Overflow)
      else if (v.value * multiplier) % Pow10(|f|) != 0 then Err(FractionalByte)
      else Ok((v.value * multiplier) / Pow10(|f|))
  }

  function CheckedTotal(whole: nat, multiplier: nat, extra: nat): Result<nat, Error> {
    if whole * multiplier >= U128_LIMIT then Err(Overflow)
    else if whole * multiplier + extra >= U128_LIMIT then Err(Overflow)
    else if whole * multiplier + extra > U64_MAX then Err(Overflow)
    else Ok(whole * multiplier + extra)
  }

  /** The arithmetic of a numeral with integer part `digits` and fraction digits `frac`. */
  function Evaluate(digits: string, frac: string, multiplier: nat): Result<nat, Error>
    requires AllDigits(digits) && AllDigits(frac)
  {
    var whole := ParseU128(digits);
    if whole.Err? then whole
    else
      var extra := FractionBytes(frac, multiplier);
      if extra.Err? then extra else CheckedTotal(whole.value, multiplier, extra.value)
  }

  /** A size as text, taken apart: integer digits, fraction digits, bytes per unit. */
  datatype Parts = Parts(digits: string, frac: string, multiplier: nat)

  /** The shape of a size, before any arithmetic. */
  ghost function Shape(input: string): (r: Result<Parts, Error>)
    ensures r.Ok? ==> AllDigits(r.value.digits) && AllDigits(r.value.frac) && r.value.digits != []
    ensures r.Ok? ==> r.value.multiplier in {1, KIB, MIB, GIB, TIB, PIB}
  {
    var t := Trim(input);
    if t == [] then Err(Empty)
    else if t[0] == '-' then Err(Negative)
    else
      var num := t[..NumberLength(t)];
      if Points(num) > 1 then Err(InvalidNumber)
      else if !HasDigit(num) then Err(MissingNumber)
      else
        var rest := TrimStart(t[|num|..]);
        var k := FirstSpace(rest);
        if Trim(rest[k..]) != [] then Err(TrailingCharacters(Trim(rest[k..])))
        else if UnitMultiplier(rest[..k]) == 0 then Err(UnknownUnit(rest[..k]))
        else
          var p := PointAt(num);
          if p == 0 then Err(MissingNumber)
          else
            SplitNumber(num);
            Ok(Parts(num[..p], if p == |num| then [] else num[p + 1..], UnitMultiplier(rest[..k])))
  }

  lemma {:induction false} SplitNumber(num: string)
    requires forall i :: 0 <= i < |num| ==> InNumber(num[i])
    requires Points(num) <= 1
    ensures var p := PointAt(num);
            AllDigits(num[..p]) && (p < |num| ==> AllDigits(num[p + 1..]))
  {
    var p := PointAt(num);
    assert num[..|num|] == num;
    forall i | p < i < |num| ensures num[i] != '.' {
      assert num[..p + 1][..p] == num[..p] && num[..i + 1][..i] == num[..i];
      PointsMonotone(num, p + 1, i);
      PointsMonotone(num, i + 1, |num|);
    }
  }

  method ParseByteSize(input: string) returns (r: Result<nat, Error>)
    ensures Shape(input).Err? ==> r == Err(Shape(input).error)
    ensures Shape(input).Ok? ==>
              var p := Shape(input).value; r == Evaluate(p.digits, p.frac, p.multiplier)
  {
    var t := Trim(input);
    if t == [] { return Err(Empty); }
    if t[0] == '-' { return Err(Negative); }
    var scan := ScanNumber(t);
    if scan.Err? { return Err(scan.error); }
    var num := t[..scan.value];
    var rest := TrimStart(t[scan.value..]);
    var k := FirstSpace(rest);
    var unit := rest[..k];
    var trailing := Trim(rest[k..]);
    if trailing != [] { return Err(TrailingCharacters(trailing)); }
    var multiplier := UnitMultiplier(unit);
    if multiplier == 0 { return Err(UnknownUnit(unit)); }
    SplitNumber(num);
    var p := PointAt(num);
    if p < |num| {
      if p == 0 { return Err(MissingNumber); }
      var whole := ParseU128(num[..p]);
      if whole.Err? { return whole; }
      var extra := FractionBytes(num[p + 1..], multiplier);
      if extra.Err? { return extra; }
      r := CheckedTotal(whole.value, multiplier, extra.value);
    } else {
      assert num[..p] == num && num != [];
      var whole := ParseU128(num);
      if whole.Err? { return whole; }
      r := CheckedTotal(whole.value, multiplier, 0);
    }
  }
}
