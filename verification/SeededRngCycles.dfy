/** Seeded generators run in cycles, so what can be said of all states can be said of those in use. */
module SeededRngCycles {
  import opened Sets
  import opened SeededRng

  // ---------------------------------------------------------------- there are finitely many states

  const WORDS: nat := 0x1_0000_0000_0000_0000

  lemma WordOfNumber(x: bv64)
    ensures 0 <= x as int < WORDS && (x as int) as bv64 == x
  {
  }

  ghost function WordOf(n: int): bv64
    requires 0 <= n < WORDS
  {
    n as bv64
  }

  ghost function FirstWords(n: nat): set<bv64>
    requires n <= WORDS
  {
    if n == 0 then {} else FirstWords(n - 1) + {WordOf(n - 1)}
  }

  lemma {:induction false} WordAmongFirst(k: int, n: nat)
    requires 0 <= k < n <= WORDS
    ensures WordOf(k) in FirstWords(n)
  {
    if k < n - 1 { WordAmongFirst(k, n - 1); }
  }

  lemma EveryWord(x: bv64)
    ensures x in FirstWords(WORDS)
  {
    WordOfNumber(x);
    WordAmongFirst(x as int, WORDS);
  }

  ghost function StatesOver(w: set<bv64>): set<State> {
    set a, b, c, d | a in w && b in w && c in w && d in w :: State(a, b, c, d)
  }

  ghost function AllStates(): set<State> { StatesOver(FirstWords(WORDS)) }

  lemma EveryState(s: State)
    ensures s in AllStates()
  {
    EveryWord(s.s0);
    EveryWord(s.s1);
    EveryWord(s.s2);
    EveryWord(s.s3);
    assert s == State(s.s0, s.s1, s.s2, s.s3);
  }

  // ---------------------------------------------------------------- every run comes back

  ghost function Orbit(s: State, n: nat): (o: seq<State>)
    ensures |o| == n
  {
    seq(n, i requires 0 <= i => Steps(s, i))
  }

  lemma OrbitAt(s: State, n: nat, i: nat)
    requires i < n
    ensures Orbit(s, n)[i] == Steps(s, i)
  {
  }

  /** Every generator returns to its start. */
  lemma Period(s: State) returns (p: nat)
    ensures p > 0 && Steps(s, p) == s
  {
    forall r: State ensures r in AllStates() { EveryState(r); }
    p := PeriodWithin(s, AllStates());
  }

  lemma PeriodWithin(s: State, all: set<State>) returns (p: nat)
    requires forall r: State :: r in all
    ensures p > 0 && Steps(s, p) == s
  {
    var n := |all| + 1;
    var i, j := Pigeonhole(Orbit(s, n), all);
    OrbitAt(s, n, i);
    OrbitAt(s, n, j);
    RepeatReturnsToStart(s, i, j);
    p := j - i;
  }

  lemma Pigeonhole<T>(o: seq<T>, all: set<T>) returns (i: nat, j: nat)
    requires |o| > |all| && forall i :: 0 <= i < |o| ==> o[i] in all
    ensures i < j < |o| && o[i] == o[j]
  {
    Crowded(o, all);
    i, j :| 0 <= i < j < |o| && o[i] == o[j];
  }

  lemma Crowded<T>(o: seq<T>, all: set<T>)
    requires |o| > |all| && forall i :: 0 <= i < |o| ==> o[i] in all
    ensures !NoDup(o)
  {
    SubsetSize(ToSet(o), all);
    if NoDup(o) { NoDupSize(o); }
  }

  /** k periods. */
  ghost function Rounds(k: nat, p: nat): nat { if k == 0 then 0 else Rounds(k - 1, p) + p }

  lemma {:induction false} RoundsReturn(s: State, p: nat, k: nat)
    requires Steps(s, p) == s
    ensures Steps(s, Rounds(k, p)) == s
    ensures p > 0 ==> Rounds(k, p) >= k
  {
    if k > 0 {
      RoundsReturn(s, p, k - 1);
      StepsCompose(s, Rounds(k - 1, p), p);
    }
  }

  /** A generator can be run on to where it will be back at its start after n more words. */
  lemma RunsOnTo(s: State, n: nat) returns (m: nat)
    ensures Steps(Steps(s, m), n) == s
  {
    var p := Period(s);
    RoundsReturn(s, p, n);
    m := Rounds(n, p) - n;
    StepsCompose(s, m, n);
  }

  // ---------------------------------------------------------------- splitting fills of generators in use

  /** The first words of seed 0. */
  lemma SeedZeroWords()
    ensures Output(New(0)) == 0x53175D61490B23DF && Output(Step(New(0))) == 0x61DA6F3DC380D507
  {
    assert RawSeed(0) == State(0xE220A8397B1DCDAF, 0x6E789E6AA1B965F4, 0x06C45D188009454F, 0xF88BB8A8724C81EC);
  }

  lemma SeedZeroWordsDiffer(j: nat)
    requires 0 < j < 8
    ensures LittleEndian(Output(New(0)))[j] != LittleEndian(Output(Step(New(0))))[0]
  {
    SeedZeroWords();
    TheseWordsDiffer(Output(New(0)), Output(Step(New(0))), j);
  }

  lemma TheseWordsDiffer(w: bv64, next: bv64, j: nat)
    requires w == 0x53175D61490B23DF && next == 0x61DA6F3DC380D507 && 0 < j < 8
    ensures LittleEndian(w)[j] != LittleEndian(next)[0]
  {
    FirstBytes();
    SecondByte();
    TheseBytesDiffer(LittleEndian(w), LittleEndian(next), j);
  }

  lemma TheseBytesDiffer(b: seq<bv8>, next: seq<bv8>, j: nat)
    requires b == [0xDF, 0x23, 0x0B, 0x49, 0x61, 0x5D, 0x17, 0x53] && 0 < j < 8
    requires next != [] && next[0] == 0x07
    ensures b[j] != next[0]
  {
  }

  lemma FirstBytes()
    ensures LittleEndian(0x53175D61490B23DF) == [0xDF, 0x23, 0x0B, 0x49, 0x61, 0x5D, 0x17, 0x53]
  {
    assert LowBytes(0x53, 1) == [0x53];
    assert LowBytes(0x5317, 2) == [0x17] + LowBytes(0x53, 1);
    assert LowBytes(0x53175D, 3) == [0x5D] + LowBytes(0x5317, 2);
    assert LowBytes(0x53175D61, 4) == [0x61] + LowBytes(0x53175D, 3);
    assert LowBytes(0x53175D6149, 5) == [0x49] + LowBytes(0x53175D61, 4);
    assert LowBytes(0x53175D61490B, 6) == [0x0B] + LowBytes(0x53175D6149, 5);
    assert LowBytes(0x53175D61490B23, 7) == [0x23] + LowBytes(0x53175D61490B, 6);
    assert LowBytes(0x53175D61490B23DF, 8) == [0xDF] + LowBytes(0x53175D61490B23, 7);
  }

  lemma SecondByte()
    ensures LittleEndian(0x61DA6F3DC380D507)[0] == 0x07
  {
  }

  /** A new generator of seed 0 already loses bytes when a fill is split inside its first word. */
  lemma SeedZeroSplit(a: nat, b: nat)
    requires 0 < a < 8 && b > 0
    ensures !FillsJoin(New(0), a, b)
  {
    SeedZeroWordsDiffer(a);
    SplitLosesBytes(New(0), New(0), a, b, 0, a);
  }

  /** Splitting a fill is harmless for every seeded generator, however many words it has given, exactly at a multiple
      of eight, or when nothing follows. */
  lemma SeededFillsJoinIff(a: nat, b: nat)
    ensures (forall seed: bv64, n: nat :: FillsJoin(Steps(New(seed), n), a, b)) <==> a % 8 == 0 || b == 0
  {
    if a % 8 == 0 || b == 0 {
      FillsJoinIff(a, b);
    } else {
      var m := RunsOnTo(New(0), a / 8);
      SeedZeroWordsDiffer(a % 8);
      SplitLosesBytes(Steps(New(0), m), New(0), a, b, a / 8, a % 8);
    }
  }
}
