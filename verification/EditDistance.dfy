/** The spelling helper behind "did you mean": the two-row Levenshtein loop, what it computes, and the
    choice of the nearest declared key. */
module EditDistance {

  function Front(s: string): string
    requires s != []
  {
    s[..|s| - 1]
  }

  function Last(s: string): char
    requires s != []
  {
    s[|s| - 1]
  }

  function Min3(x: nat, y: nat, z: nat): nat {
    if x <= y && x <= z then x else if y <= z then y else z
  }

  /** The recursive edit distance. */
  function Dist(a: string, b: string): nat
    decreases |a| + |b|
  {
    if a == [] then |b|
    else if b == [] then |a|
    else Min3(Dist(a, Front(b)) + 1, Dist(Front(a), b) + 1,
              Dist(Front(a), Front(b)) + if Last(a) == Last(b) then 0 else 1)
  }

  // ---------------------------------------------------------------- a metric

  lemma {:induction false} LengthGap(a: string, b: string)
    ensures |a| <= |b| + Dist(a, b) && |b| <= |a| + Dist(a, b)
    ensures Dist(a, b) <= |a| + |b|
    decreases |a| + |b|
  {
    if a != [] && b != [] {
      LengthGap(a, Front(b));
      LengthGap(Front(a), b);
      LengthGap(Front(a), Front(b));
    }
  }

  lemma {:induction false} ZeroIffEqual(a: string, b: string)
    ensures Dist(a, b) == 0 <==> a == b
    decreases |a| + |b|
  {
    if a != [] && b != [] {
      assert a == Front(a) + [Last(a)] && b == Front(b) + [Last(b)];
      ZeroIffEqual(Front(a), Front(b));
    }
  }

  lemma {:induction false} Symmetric(a: string, b: string)
    ensures Dist(a, b) == Dist(b, a)
    decreases |a| + |b|
  {
    if a != [] && b != [] {
      Symmetric(a, Front(b));
      Symmetric(Front(a), b);
      Symmetric(Front(a), Front(b));
    }
  }

  lemma {:induction false} Triangle(a: string, b: string, c: string)
    ensures Dist(a, c) <= Dist(a, b) + Dist(b, c)
    decreases |a| + |b| + |c|
  {
    LengthGap(a, b);
    LengthGap(b, c);
    LengthGap(a, c);
    if a != [] && b != [] && c != [] {
      if Dist(a, b) == Dist(Front(a), b) + 1 {
        Triangle(Front(a), b, c);
      } else if Dist(b, c) == Dist(b, Front(c)) + 1 {
        Triangle(a, b, Front(c));
      } else if Dist(a, b) == Dist(a, Front(b)) + 1 {
        if Dist(b, c) == Dist(Front(b), c) + 1 {
          Triangle(a, Front(b), c);
        } else {
          Triangle(a, Front(b), Front(c));
        }
      } else if Dist(b, c) == Dist(Front(b), c) + 1 {
        Triangle(Front(a), Front(b), c);
      } else {
        Triangle(Front(a), Front(b), Front(c));
      }
    }
  }

  // ---------------------------------------------------------------- the fewest single-character edits

  /** b is a with one character inserted, deleted or replaced. */
  ghost predicate OneEdit(a: string, b: string) {
    exists k: nat :: EditAt(a, b, k)
  }

  ghost predicate EditAt(a: string, b: string, k: nat) {
    || (k <= |a| && |b| == |a| + 1 && a[..k] == b[..k] && a[k..] == b[k + 1..])
    || (k < |a| && |b| == |a| - 1 && a[..k] == b[..k] && a[k + 1..] == b[k..])
    || (k < |a| && |b| == |a| && a[..k] == b[..k] && a[k + 1..] == b[k + 1..])
  }

  /** A path from a to b whose every step is one edit. */
  ghost predicate EditPath(p: seq<string>, a: string, b: string) {
    && p != [] && p[0] == a && p[|p| - 1] == b
    && forall i :: 0 <= i < |p| - 1 ==> OneEdit(p[i], p[i + 1])
  }

  lemma {:induction false} EditAtCost(a: string, b: string, k: nat)
    requires EditAt(a, b, k)
    ensures Dist(a, b) <= 1
    decreases |a| + |b|
  {
    if a != [] && b != [] {
      var a', b' := Front(a), Front(b);
      ZeroIffEqual(a', b');
      ZeroIffEqual(a', b);
      ZeroIffEqual(a, b');
      if k < |a| && k < |b| && (k + 1 < |a| || k + 1 < |b|) {
        TrimEdit(a, b, k);
        EditAtCost(a', b', k);
      } else if |a| == |b| {
        assert a' == b';
      } else if |b| == |a| + 1 {
        assert a == b';
      } else {
        assert a' == b;
      }
    }
  }

  lemma TrimEdit(a: string, b: string, k: nat)
    requires EditAt(a, b, k) && k < |a| && k < |b| && (k + 1 < |a| || k + 1 < |b|)
    ensures EditAt(Front(a), Front(b), k) && Last(a) == Last(b)
  {
    if |b| == |a| + 1 {
      assert Last(a) == a[k..][|a| - 1 - k] == b[k + 1..][|a| - 1 - k];
      assert Front(a)[k..] == a[k..][..|a| - 1 - k];
      assert Front(b)[k + 1..] == b[k + 1..][..|a| - 1 - k];
    } else if |b| == |a| - 1 {
      assert Last(b) == b[k..][|b| - 1 - k] == a[k + 1..][|b| - 1 - k];
      assert Front(b)[k..] == b[k..][..|b| - 1 - k];
      assert Front(a)[k + 1..] == a[k + 1..][..|b| - 1 - k];
    } else {
      assert Last(b) == b[k + 1..][|b| - 2 - k] == a[k + 1..][|b| - 2 - k];
      assert Front(b)[k + 1..] == b[k + 1..][..|b| - 2 - k];
      assert Front(a)[k + 1..] == a[k + 1..][..|b| - 2 - k];
    }
    assert Front(a)[..k] == a[..k] && Front(b)[..k] == b[..k];
  }

  /** No sequence of edits is shorter than the distance. */
  lemma {:induction false} NoShorterPath(p: seq<string>, a: string, b: string)
    requires EditPath(p, a, b)
    ensures Dist(a, b) <= |p| - 1
    decreases |p|
  {
    if |p| == 1 {
      ZeroIffEqual(a, b);
    } else {
      var mid := p[|p| - 2];
      NoShorterPath(p[..|p| - 1], a, mid);
      assert OneEdit(p[|p| - 2], p[|p| - 2 + 1]);
      var k: nat :| EditAt(mid, b, k);
      EditAtCost(mid, b, k);
      Triangle(a, mid, b);
    }
  }

  function AppendAll(p: seq<string>, c: char): (q: seq<string>)
    ensures |q| == |p|
  {
    seq(|p|, i requires 0 <= i < |p| => p[i] + [c])
  }

  lemma AppendKeepsPath(p: seq<string>, a: string, b: string, c: char)
    requires EditPath(p, a, b)
    ensures EditPath(AppendAll(p, c), a + [c], b + [c])
  {
    var q := AppendAll(p, c);
    forall i | 0 <= i < |q| - 1 ensures OneEdit(q[i], q[i + 1]) {
      assert OneEdit(p[i], p[i + 1]);
      var k: nat :| EditAt(p[i], p[i + 1], k);
      AppendKeepsEdit(p[i], p[i + 1], k, c);
    }
  }

  lemma AppendKeepsEdit(a: string, b: string, k: nat, c: char)
    requires EditAt(a, b, k)
    ensures EditAt(a + [c], b + [c], k)
  {
    assert k <= |a| ==> (a + [c])[k..] == a[k..] + [c] && (a + [c])[..k] == a[..k];
    assert k <= |b| ==> (b + [c])[k..] == b[k..] + [c] && (b + [c])[..k] == b[..k];
    assert k + 1 <= |a| ==> (a + [c])[k + 1..] == a[k + 1..] + [c];
    assert k + 1 <= |b| ==> (b + [c])[k + 1..] == b[k + 1..] + [c];
  }

  lemma ExtendPath(p: seq<string>, a: string, b: string, c: string, k: nat)
    requires EditPath(p, a, b) && EditAt(b, c, k)
    ensures EditPath(p + [c], a, c)
  {
    var q := p + [c];
    forall i | 0 <= i < |q| - 1 ensures OneEdit(q[i], q[i + 1]) {
      if i < |p| - 1 { assert OneEdit(p[i], p[i + 1]); }
    }
  }

  lemma PrependPath(p: seq<string>, a: string, b: string, c: string, k: nat)
    requires EditPath(p, b, c) && EditAt(a, b, k)
    ensures EditPath([a] + p, a, c)
  {
    var q := [a] + p;
    forall i | 0 <= i < |q| - 1 ensures OneEdit(q[i], q[i + 1]) {
      if i > 0 {
        var j := i - 1;
        assert OneEdit(p[j], p[j + 1]);
      }
    }
  }

  /** A path between the fronts becomes a path between the strings, one step longer if the last
      characters differ. */
  lemma FinishPath(q: seq<string>, a: string, b: string) returns (p: seq<string>)
    requires a != [] && b != [] && EditPath(q, Front(a), Front(b))
    ensures EditPath(p, a, b) && |p| == |q| + if Last(a) == Last(b) then 0 else 1
  {
    AppendKeepsPath(q, Front(a), Front(b), Last(a));
    p := AppendAll(q, Last(a));
    assert a == Front(a) + [Last(a)] && b == Front(b) + [Last(b)];
    if Last(a) != Last(b) {
      var c := Front(b) + [Last(a)];
      assert EditAt(c, b, |b| - 1);
      ExtendPath(p, a, c, b, |b| - 1);
      p := p + [b];
    }
  }

  /** Some sequence of edits has exactly the length of the distance. */
  lemma {:induction false} ShortestPath(a: string, b: string) returns (p: seq<string>)
    ensures EditPath(p, a, b) && |p| - 1 == Dist(a, b)
    decreases |a| + |b|
  {
    if a == [] && b == [] {
      p := [a];
    } else if b != [] && (a == [] || Dist(a, b) == Dist(a, Front(b)) + 1) {
      p := ShortestPath(a, Front(b));
      assert EditAt(Front(b), b, |b| - 1);
      ExtendPath(p, a, Front(b), b, |b| - 1);
      p := p + [b];
    } else if b == [] || Dist(a, b) == Dist(Front(a), b) + 1 {
      p := ShortestPath(Front(a), b);
      assert EditAt(a, Front(a), |a| - 1);
      PrependPath(p, a, Front(a), b, |a| - 1);
      p := [a] + p;
    } else {
      var q := ShortestPath(Front(a), Front(b));
      p := FinishPath(q, a, b);
    }
  }

  // ---------------------------------------------------------------- the loop

  /** A row of the table: the distances of a to the first prefixes of b. */
  ghost predicate IsRow(row: seq<nat>, a: string, b: string) {
    |row| <= |b| + 1 && forall j :: 0 <= j < |row| ==> row[j] == Dist(a, b[..j])
  }

  lemma FirstRow(row: seq<nat>, b: string)
    requires |row| == |b| + 1 && forall j :: 0 <= j < |row| ==> row[j] == j
    ensures IsRow(row, "", b)
  {
  }

  /** One more cell, from its three neighbours. */
  lemma RowGrows(previous: seq<nat>, current: seq<nat>, a: string, more: string, b: string, cell: nat)
    requires IsRow(previous, a, b) && |previous| == |b| + 1 && IsRow(current, more, b) && 0 < |current| <= |b|
    requires more != [] && Front(more) == a
    requires var j := |current| - 1;
             cell == Min3(current[j] + 1, previous[j + 1] + 1, previous[j] + if Last(more) != b[j] then 1 else 0)
    ensures IsRow(current + [cell], more, b)
  {
    var j := |current| - 1;
    assert Front(b[..j + 1]) == b[..j] && Last(b[..j + 1]) == b[j];
  }

  /** Two rows of the table, the second built from the first one character at a time. */
  method Levenshtein(a: string, b: string) returns (d: nat)
    ensures d == Dist(a, b)
  {
    var previous: seq<nat> := seq(|b| + 1, j requires 0 <= j => j);
    FirstRow(previous, b);
    assert a[..0] == "";
    for i := 0 to |a|
      invariant |previous| == |b| + 1 && IsRow(previous, a[..i], b)
    {
      assert Front(a[..i + 1]) == a[..i] && Last(a[..i + 1]) == a[i];
      previous := NextRow(a[i], b, i, previous, a[..i], a[..i + 1]);
    }
    assert a[..|a|] == a && b[..|b|] == b;
    d := previous[|b|];
  }

  method NextRow(ca: char, b: string, i: nat, previous: seq<nat>, ghost before: string, ghost after: string)
    returns (current: seq<nat>)
    requires |previous| == |b| + 1 && IsRow(previous, before, b)
    requires |after| == i + 1 && Front(after) == before && Last(after) == ca
    ensures |current| == |b| + 1 && IsRow(current, after, b)
  {
    current := [i + 1];
    assert b[..0] == [];
    for j := 0 to |b|
      invariant |current| == j + 1 && IsRow(current, after, b)
    {
      var insert := current[j] + 1;
      var delete := previous[j + 1] + 1;
      var replace := previous[j] + if ca != b[j] then 1 else 0;
      RowGrows(previous, current, before, after, b, Min3(insert, delete, replace));
      current := current + [Min3(insert, delete, replace)];
    }
  }

  // ---------------------------------------------------------------- the nearest key

  /** Strings in dictionary order of code points. */
  predicate AtMost(a: string, b: string) {
    a == [] || (b != [] && (a[0] < b[0] || (a[0] == b[0] && AtMost(a[1..], b[1..]))))
  }

  lemma {:induction false} AtMostTotal(a: string, b: string)
    ensures AtMost(a, b) || AtMost(b, a)
    ensures AtMost(a, b) && AtMost(b, a) ==> a == b
  {
    if a != [] && b != [] {
      AtMostTotal(a[1..], b[1..]);
      assert a == [a[0]] + a[1..] && b == [b[0]] + b[1..];
    }
  }

  lemma {:induction false} AtMostTransitive(a: string, b: string, c: string)
    requires AtMost(a, b) && AtMost(b, c)
    ensures AtMost(a, c)
  {
    if a != [] && a[0] == b[0] == c[0] {
      AtMostTransitive(a[1..], b[1..], c[1..]);
    }
  }

  /** Key `a` is suggested no later than key `b`: closer, or as close and earlier in the dictionary. */
  ghost predicate Preferred(input: string, a: string, b: string) {
    Dist(input, a) < Dist(input, b) || (Dist(input, a) == Dist(input, b) && AtMost(a, b))
  }

  /** The suggestion: a declared key that no declared key is preferred to; the empty string if none is
      declared. */
  method Nearest(input: string, keys: seq<string>) returns (best: string)
    ensures keys == [] ==> best == ""
    ensures keys != [] ==> best in keys
    ensures forall k :: k in keys ==> Preferred(input, best, k)
  {
    if keys == [] {
      return "";
    }
    best := keys[0];
    var bestDist := Levenshtein(input, best);
    AtMostTotal(best, best);
    for i := 1 to |keys|
      invariant best in keys && bestDist == Dist(input, best)
      invariant forall k :: k in keys[..i] ==> Preferred(input, best, k)
    {
      var d := Levenshtein(input, keys[i]);
      ghost var was := best;
      AtMostTotal(keys[i], best);
      AtMostTotal(keys[i], keys[i]);
      if d < bestDist || (d == bestDist && keys[i] != best && AtMost(keys[i], best)) {
        best, bestDist := keys[i], d;
        forall k | k in keys[..i] ensures Preferred(input, best, k) {
          if AtMost(was, k) && AtMost(best, was) { AtMostTransitive(best, was, k); }
        }
      }
      assert keys[..i + 1] == keys[..i] + [keys[i]];
    }
    assert keys[..|keys|] == keys;
  }

  /** A declared key suggests itself, so a suggestion at distance zero never misleads. */
  lemma DeclaredKeySuggestsItself(input: string, best: string)
    requires Preferred(input, best, input)
    ensures best == input
  {
    ZeroIffEqual(input, input);
    ZeroIffEqual(input, best);
  }
}
