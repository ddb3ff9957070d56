/** Which assignment wins, and why the order of layers does not matter. */
module ConfigPrecedence {
  import opened ConfigSchema
  import opened LayeredConfig
  import opened EffectiveConfiguration

  function Rank(a: Assignment): nat { Precedence(a.source) }

  // ---------------------------------------------------------------- the winning assignment

  /** Assignment i has the highest precedence among those of its key, is the last of them, and is not below what
      was there before. */
  ghost predicate Wins(v: Values, all: seq<Assignment>, key: string, i: nat) {
    && i < |all| && all[i].spec.key == key && (key in v ==> Outranks(all[i], v[key]))
    && (forall j :: 0 <= j < |all| && all[j].spec.key == key ==> Rank(all[j]) <= Rank(all[i]))
    && (forall j :: i < j < |all| && all[j].spec.key == key ==> Rank(all[j]) < Rank(all[i]))
  }

  /** Every assignment of the key is below what was there before. */
  ghost predicate NoneWins(v: Values, all: seq<Assignment>, key: string) {
    forall j :: 0 <= j < |all| && all[j].spec.key == key ==> key in v && !Outranks(all[j], v[key])
  }

  ghost predicate Unchanged(v: Values, w: Values, key: string) {
    (key in v <==> key in w) && (key in v ==> v[key] == w[key])
  }

  /** A key keeps its value when no assignment wins, and otherwise takes value and source of the winner. */
  ghost predicate Settled(v: Values, all: seq<Assignment>, key: string) {
    var w := AssignAll(v, all);
    || (NoneWins(v, all, key) && Unchanged(v, w, key))
    || exists i: nat :: Wins(v, all, key, i) && key in w && w[key] == Placed(all[i])
  }

  lemma {:induction false} AllSettled(v: Values, all: seq<Assignment>, key: string)
    ensures Settled(v, all, key)
  {
    if all != [] {
      var n := |all| - 1;
      assert all == all[..n] + [all[n]];
      AllSettled(v, all[..n], key);
      SettleOneMore(v, all[..n], all[n], key);
    }
  }

  lemma WinsLast(v: Values, all: seq<Assignment>, a: Assignment)
    requires a.spec.key in v ==> Outranks(a, v[a.spec.key])
    requires forall j :: 0 <= j < |all| && all[j].spec.key == a.spec.key ==> Rank(all[j]) <= Rank(a)
    ensures Wins(v, all + [a], a.spec.key, |all|)
  {
  }

  lemma WinsStill(v: Values, all: seq<Assignment>, a: Assignment, key: string, i: nat)
    requires Wins(v, all, key, i) && (a.spec.key == key ==> Rank(a) < Rank(all[i]))
    ensures Wins(v, all + [a], key, i)
  {
  }

  lemma NoneWinsStill(v: Values, all: seq<Assignment>, a: Assignment, key: string)
    requires NoneWins(v, all, key) && (a.spec.key == key ==> key in v && !Outranks(a, v[key]))
    ensures NoneWins(v, all + [a], key)
  {
  }

  lemma SettleOneMore(v: Values, all: seq<Assignment>, a: Assignment, key: string)
    requires Settled(v, all, key)
    ensures Settled(v, all + [a], key)
  {
    var w := AssignAll(v, all);
    AssignLast(v, all, a);
    assert (all + [a])[|all|] == a;
    if NoneWins(v, all, key) && Unchanged(v, w, key) {
      if a.spec.key == key && (key !in w || Outranks(a, w[key])) {
        WinsLast(v, all, a);
      } else {
        NoneWinsStill(v, all, a, key);
      }
    } else {
      var i: nat :| Wins(v, all, key, i) && key in w && w[key] == Placed(all[i]);
      assert (all + [a])[i] == all[i];
      if a.spec.key == key && Outranks(a, w[key]) {
        WinsLast(v, all, a);
      } else {
        WinsStill(v, all, a, key, i);
      }
    }
  }

  /** At most one assignment wins, so the effective value and source are those of the winner. */
  lemma EffectiveIsWinner(v: Values, all: seq<Assignment>, key: string, i: nat)
    requires Wins(v, all, key, i)
    ensures key in AssignAll(v, all) && AssignAll(v, all)[key] == Placed(all[i])
  {
    AllSettled(v, all, key);
    forall j: nat | Wins(v, all, key, j) ensures j == i {
    }
  }

  // ---------------------------------------------------------------- the order of layers

  /** Two assignments of different precedence may be swapped. */
  lemma Swap(v: Values, a: Assignment, b: Assignment)
    requires Rank(a) != Rank(b)
    ensures Assign(Assign(v, a), b) == Assign(Assign(v, b), a)
  {
  }

  ghost predicate Apart(a: seq<Assignment>, b: seq<Assignment>) {
    forall i, j :: 0 <= i < |a| && 0 <= j < |b| ==> Rank(a[i]) != Rank(b[j])
  }

  lemma {:induction false} SwapPast(v: Values, a: seq<Assignment>, b: Assignment)
    requires forall i :: 0 <= i < |a| ==> Rank(a[i]) != Rank(b)
    ensures AssignAll(Assign(v, b), a) == Assign(AssignAll(v, a), b)
  {
    if a != [] {
      SwapPast(v, a[..|a| - 1], b);
      Swap(AssignAll(v, a[..|a| - 1]), a[|a| - 1], b);
    }
  }

  lemma {:induction false} SwapLayers(v: Values, a: seq<Assignment>, b: seq<Assignment>)
    requires Apart(a, b)
    ensures AssignAll(AssignAll(v, a), b) == AssignAll(AssignAll(v, b), a)
  {
    if b != [] {
      var n := |b| - 1;
      SwapLayers(v, a, b[..n]);
      SwapPast(AssignAll(v, b[..n]), a, b[n]);
    }
  }

  /** Layers one after the other. */
  function Layers(v: Values, layers: seq<seq<Assignment>>): Values
    decreases |layers|
  {
    if layers == [] then v else Layers(AssignAll(v, layers[0]), layers[1..])
  }

  ghost predicate AllApart(layers: seq<seq<Assignment>>) {
    forall i, j :: 0 <= i < j < |layers| ==> Apart(layers[i], layers[j]) && Apart(layers[j], layers[i])
  }

  function Without<T>(s: seq<T>, p: nat): seq<T>
    requires p < |s|
  {
    s[..p] + s[p + 1..]
  }

  lemma {:induction false} LayerFirst(v: Values, layers: seq<seq<Assignment>>, p: nat)
    requires AllApart(layers) && p < |layers|
    ensures Layers(v, layers) == Layers(AssignAll(v, layers[p]), Without(layers, p))
    decreases p
  {
    if p == 0 {
      assert Without(layers, 0) == layers[1..];
    } else {
      LayerFirst(AssignAll(v, layers[0]), layers[1..], p - 1);
      SwapLayers(v, layers[0], layers[p]);
      assert Without(layers, p)[1..] == Without(layers[1..], p - 1);
    }
  }

  lemma WithoutApart(layers: seq<seq<Assignment>>, p: nat)
    requires AllApart(layers) && p < |layers|
    ensures AllApart(Without(layers, p))
  {
    var w := Without(layers, p);
    forall i, j | 0 <= i < j < |w| ensures Apart(w[i], w[j]) && Apart(w[j], w[i]) {
      assert w[i] == layers[if i < p then i else i + 1] && w[j] == layers[if j < p then j else j + 1];
    }
  }

  lemma WithoutCounts<T>(s: seq<T>, p: nat)
    requires p < |s|
    ensures multiset(s) == multiset(Without(s, p)) + multiset{s[p]}
  {
    assert s == s[..p] + ([s[p]] + s[p + 1..]);
  }

  lemma Cancel<T>(a: multiset<T>, b: multiset<T>, x: T)
    requires a + multiset{x} == b + multiset{x}
    ensures a == b
  {
    assert a == a + multiset{x} - multiset{x};
    assert b == b + multiset{x} - multiset{x};
  }

  /** Where a permutation's first element sits. */
  lemma FirstOf<T>(a: seq<T>, b: seq<T>) returns (p: nat)
    requires multiset(a) == multiset(b) && b != []
    ensures p < |a| && a[p] == b[0] && multiset(Without(a, p)) == multiset(b[1..])
  {
    assert b[0] in multiset(a);
    p :| p < |a| && a[p] == b[0];
    WithoutCounts(a, p);
    WithoutCounts(b, 0);
    assert Without(b, 0) == b[1..];
    Cancel(multiset(Without(a, p)), multiset(b[1..]), b[0]);
  }

  /** Layers of pairwise different precedence give the same values and sources in any order. */
  lemma {:induction false} AnyOrder(v: Values, a: seq<seq<Assignment>>, b: seq<seq<Assignment>>)
    requires AllApart(a) && multiset(a) == multiset(b)
    ensures Layers(v, a) == Layers(v, b)
    decreases |b|
  {
    if b == [] {
      assert |multiset(a)| == 0;
    } else {
      var p := FirstOf(a, b);
      LayerFirst(v, a, p);
      WithoutApart(a, p);
      AnyOrder(AssignAll(v, b[0]), Without(a, p), b[1..]);
    }
  }

  // ---------------------------------------------------------------- layers of the object

  ghost predicate OfPrecedence(entries: seq<Entry>, p: nat) {
    forall k :: 0 <= k < |entries| ==> Precedence(entries[k].source) == p
  }

  lemma {:induction false} TakenRanks(w: World, entries: seq<Entry>, p: nat)
    requires OfPrecedence(entries, p)
    ensures forall k :: 0 <= k < |TakenAll(w, entries)| ==> Rank(TakenAll(w, entries)[k]) == p
  {
    if entries != [] { TakenRanks(w, entries[..|entries| - 1], p); }
  }

  /** Whether accepted or not, two layers of different precedence leave the same values and sources in either
      order. */
  lemma LayersCommute(v: Values, w: World, a: seq<Entry>, b: seq<Entry>, p: nat, q: nat)
    requires OfPrecedence(a, p) && OfPrecedence(b, q) && p != q
    ensures AssignAll(AssignAll(v, TakenAll(w, a)), TakenAll(w, b)) == AssignAll(AssignAll(v, TakenAll(w, b)), TakenAll(w, a))
  {
    TakenRanks(w, a, p);
    TakenRanks(w, b, q);
    SwapLayers(v, TakenAll(w, a), TakenAll(w, b));
  }

  /** Both layers are accepted, a first. */
  ghost predicate AcceptsBoth(w: World, v: Values, a: seq<Entry>, b: seq<Entry>) {
    Accepts(w, v, a, []) && Accepts(w, AssignAll(v, TakenAll(w, a)), b, [])
  }

  /** Two layers of different precedence accepted in one order are accepted in the other exactly when the second
      alone keeps the rules across settings. */
  lemma OtherOrderIff(v: Values, w: World, a: seq<Entry>, b: seq<Entry>, p: nat, q: nat)
    requires OfPrecedence(a, p) && OfPrecedence(b, q) && p != q && AcceptsBoth(w, v, a, b)
    ensures AcceptsBoth(w, v, b, a) <==> Coherent(AssignAll(v, TakenAll(w, b)))
  {
    LayersCommute(v, w, a, b, p, q);
  }

  /** Acceptance itself does depend on the order: a small maximum from the file breaks the rule alone, and keeps
      it once a flag has lowered the minimum. */
  lemma AcceptanceDependsOnOrder(v: Values, max: Assignment, min: Assignment)
    requires Coherent(v) && v[PREFILL_MIN].value == Int(128) && v[PREFILL_MAX].value == Int(2048)
    requires v[PREFILL_MIN].source == Default && v[PREFILL_MAX].source == Default
    requires max.spec.key == PREFILL_MAX && max.value == Int(64) && max.source.File?
    requires min.spec.key == PREFILL_MIN && min.value == Int(32) && min.source.Cli?
    ensures !Coherent(Assign(v, max)) && Coherent(Assign(v, min)) && Coherent(Assign(Assign(v, min), max))
  {
    assert PREFILL_MIN[19] == 'i' && PREFILL_MAX[19] == 'a';
    assert PREFILL_MIN[1] == 'c' && BUCKETS[1] == 'a' && K_MAX[1] == 'p' && TREE_MAX[1] == 'p' && MAX_CTX[1] == 't';
    assert LargestPrefillBucket(Assign(v, min)) == LargestPrefillBucket(v);
    assert LargestPrefillBucket(Assign(Assign(v, min), max)) == LargestPrefillBucket(v);
  }
}
