/** The seeded generator: SplitMix64 fills the state of xoshiro256++. Words are 64-bit vectors, so
    additions, products and shifts wrap as they do in the source.

    Every word operation has a name, so that facts about whole generators follow from a few
    identities about single operations. */
module SeededRng {

  datatype State = State(s0: bv64, s1: bv64, s2: bv64, s3: bv64)

  const ZERO: State := State(0, 0, 0, 0)
  const FALLBACK: State :=
    State(0x9E3779B97F4A7C15, 0xBF58476D1CE4E5B9, 0x94D049BB133111EB, 0xD6E8FEB86659FD93)

  // ---------------------------------------------------------------- SplitMix64

  function Weyl(x: bv64): bv64 { x + 0x9E3779B97F4A7C15 }
  function Fold30(x: bv64): bv64 { x ^ (x >> 30) }
  function Fold27(x: bv64): bv64 { x ^ (x >> 27) }
  function Fold31(x: bv64): bv64 { x ^ (x >> 31) }
  function Scale1(x: bv64): bv64 { x * 0xBF58476D1CE4E5B9 }
  function Scale2(x: bv64): bv64 { x * 0x94D049BB133111EB }

  /** The output function. */
  function Mix(x: bv64): bv64 { Fold31(Scale2(Fold27(Scale1(Fold30(x))))) }

  // The inverse of each operation; the factors are the inverses of the multipliers modulo 2^64.
  function Unfold30(y: bv64): bv64 { y ^ (y >> 30) ^ (y >> 60) }
  function Unfold27(y: bv64): bv64 { y ^ (y >> 27) ^ (y >> 54) }
  function Unfold31(y: bv64): bv64 { y ^ (y >> 31) ^ (y >> 62) }
  function Unscale1(y: bv64): bv64 { y * 0x96DE1B173F119089 }
  function Unscale2(y: bv64): bv64 { y * 0x319642B2D24D8EC3 }

  function Unmix(z: bv64): bv64 { Unfold30(Unscale1(Unfold27(Unscale2(Unfold31(z))))) }

  lemma Unfold30Word(x: bv64) ensures Unfold30(x ^ (x >> 30)) == x {}
  lemma Unfold27Word(x: bv64) ensures Unfold27(x ^ (x >> 27)) == x {}
  lemma Unfold31Word(x: bv64) ensures Unfold31(x ^ (x >> 31)) == x {}
  lemma Unscale1Word(x: bv64) ensures Unscale1(x * 0xBF58476D1CE4E5B9) == x {}
  lemma Unscale2Word(x: bv64) ensures Unscale2(x * 0x94D049BB133111EB) == x {}

  lemma Unfold30Fold30(x: bv64) ensures Unfold30(Fold30(x)) == x { Unfold30Word(x); }
  lemma Unfold27Fold27(x: bv64) ensures Unfold27(Fold27(x)) == x { Unfold27Word(x); }
  lemma Unfold31Fold31(x: bv64) ensures Unfold31(Fold31(x)) == x { Unfold31Word(x); }
  lemma Unscale1Scale1(x: bv64) ensures Unscale1(Scale1(x)) == x { Unscale1Word(x); }
  lemma Unscale2Scale2(x: bv64) ensures Unscale2(Scale2(x)) == x { Unscale2Word(x); }

  /** The mix loses nothing: its input can be computed back from its output. */
  lemma UnmixMix(x: bv64)
    ensures Unmix(Mix(x)) == x
  {
    var a := Scale1(Fold30(x));
    var b := Scale2(Fold27(a));
    Unfold31Fold31(b);
    Unscale2Scale2(Fold27(a));
    Unfold27Fold27(a);
    Unscale1Scale1(Fold30(x));
    Unfold30Fold30(x);
  }

  /** The four words drawn from a seed, before the check for the all-zero state. */
  function RawSeed(seed: bv64): State {
    var x1 := Weyl(seed);
    var x2 := Weyl(x1);
    var x3 := Weyl(x2);
    State(Mix(x1), Mix(x2), Mix(x3), Mix(Weyl(x3)))
  }

  function New(seed: bv64): State {
    var s := RawSeed(seed);
    if s.s0 == 0 && s.s1 == 0 && s.s2 == 0 && s.s3 == 0 then FALLBACK else s
  }

  lemma WeylPoints(x: bv64)
    ensures var x1 := Weyl(x); var x2 := Weyl(x1); var x3 := Weyl(x2);
            x != x1 && x != x2 && x != x3 && x1 != x2 && x1 != x3 && x2 != x3
  {
    WeylPointsWord(x);
  }

  lemma WeylPointsWord(x: bv64)
    ensures x != Weyl(x) && x != Weyl(x + 0x9E3779B97F4A7C15)
    ensures x != Weyl(x + 0x9E3779B97F4A7C15 + 0x9E3779B97F4A7C15)
  {
  }

  /** The four seed words are pairwise distinct, so the all-zero fallback is never taken. */
  lemma SeedWordsDistinct(seed: bv64)
    ensures var s := New(seed);
            && s.s0 != s.s1 && s.s0 != s.s2 && s.s0 != s.s3
            && s.s1 != s.s2 && s.s1 != s.s3 && s.s2 != s.s3
    ensures New(seed) == RawSeed(seed) != ZERO
  {
    var x1 := Weyl(seed);
    var x2 := Weyl(x1);
    var x3 := Weyl(x2);
    UnmixMix(x1);
    UnmixMix(x2);
    UnmixMix(x3);
    UnmixMix(Weyl(x3));
    WeylPoints(x1);
  }

  function SeedOf(s: State): bv64 { Unweyl(Unmix(s.s0)) }

  function Unweyl(x: bv64): bv64 { x - 0x9E3779B97F4A7C15 }

  lemma UnweylWord(x: bv64) ensures Unweyl(x + 0x9E3779B97F4A7C15) == x {}

  /** The seed can be read back from the state, so distinct seeds give distinct states. */
  lemma SeedRecoverable(seed: bv64)
    ensures SeedOf(New(seed)) == seed
  {
    SeedWordsDistinct(seed);
    UnmixMix(Weyl(seed));
    UnweylWord(seed);
  }

  // ---------------------------------------------------------------- xoshiro256++

  function Xor(x: bv64, y: bv64): bv64 { x ^ y }
  function Shl17(x: bv64): bv64 { x << 17 }
  function Rotl45(x: bv64): bv64 { (x << 45) | (x >> 19) }
  function Rotl23(x: bv64): bv64 { (x << 23) | (x >> 41) }

  function Scramble(a: bv64, d: bv64): bv64 { Rotl23(a + d) + a }

  function Output(s: State): bv64 { Scramble(s.s0, s.s3) }

  function Step(s: State): State {
    var t := Shl17(s.s1);
    var s2 := Xor(s.s2, s.s0);
    var s3 := Xor(s.s3, s.s1);
    var s1 := Xor(s.s1, s2);
    var s0 := Xor(s.s0, s3);
    State(s0, s1, Xor(s2, t), Rotl45(s3))
  }

  function Rotr45(x: bv64): bv64 { (x << 19) | (x >> 45) }
  function Unshift17(y: bv64): bv64 { y ^ (y << 17) ^ (y << 34) ^ (y << 51) }

  function Unstep(s: State): State {
    var s3 := Rotr45(s.s3);
    var s0 := Xor(s.s0, s3);
    var s1 := Unshift17(Xor(s.s1, s.s2));
    var s2 := Xor(s.s1, s1);
    State(s0, s1, Xor(s2, s0), Xor(s3, s1))
  }

  lemma Rotr45Word(x: bv64) ensures Rotr45((x << 45) | (x >> 19)) == x {}
  lemma Rotl45Word(x: bv64) ensures Rotl45((x << 19) | (x >> 45)) == x {}
  lemma Unshift17Word(x: bv64) ensures Unshift17(x ^ (x << 17)) == x {}
  lemma Unshift17Xor(x: bv64) ensures Unshift17(Xor(x, x << 17)) == x { Unshift17Word(x); }
  lemma Shift17Word(y: bv64)
    ensures var x := y ^ (y << 17) ^ (y << 34) ^ (y << 51); Xor(x, x << 17) == y {}
  lemma Shift17Xor(y: bv64)
    ensures var x := y ^ (y << 17) ^ (y << 34) ^ (y << 51); Xor(x, Shl17(x)) == y { Shift17Word(y); }
  lemma XorTwiceWord(x: bv64, y: bv64) ensures Xor(x ^ y, y) == x && Xor(x ^ y, x) == y {}
  lemma XorSharedWord(x: bv64, y: bv64, z: bv64) ensures Xor(x ^ y, y ^ z) == x ^ z {}

  lemma RotrRotl(x: bv64) ensures Rotr45(Rotl45(x)) == x { Rotr45Word(x); }
  lemma RotlRotr(x: bv64) ensures Rotl45(Rotr45(x)) == x { Rotl45Word(x); }
  lemma UnshiftShift(x: bv64) ensures Unshift17(Xor(x, Shl17(x))) == x { Unshift17Xor(x); }
  lemma ShiftUnshift(y: bv64) ensures Xor(Unshift17(y), Shl17(Unshift17(y))) == y { Shift17Xor(y); }
  lemma XorTwice(x: bv64, y: bv64)
    ensures Xor(Xor(x, y), y) == x && Xor(Xor(x, y), x) == y { XorTwiceWord(x, y); }
  lemma XorShared(x: bv64, y: bv64, z: bv64)
    ensures Xor(Xor(x, y), Xor(y, z)) == Xor(x, z) { XorSharedWord(x, y, z); }
  lemma XorSwap(x: bv64, y: bv64) ensures Xor(x, y) == Xor(y, x) {}

  /** The state step is a bijection: `Unstep` undoes it from both sides. */
  lemma StepInvertible(s: State)
    ensures Unstep(Step(s)) == s
  {
    var t, s2, s3 := Shl17(s.s1), Xor(s.s2, s.s0), Xor(s.s3, s.s1);
    RotrRotl(s3);
    XorTwice(s.s0, s3);
    XorShared(s.s1, s2, t);
    UnshiftShift(s.s1);
    XorTwice(s.s1, s2);
    XorTwice(s.s2, s.s0);
    XorTwice(s.s3, s.s1);
  }

  lemma UnstepInvertible(r: State)
    ensures Step(Unstep(r)) == r
  {
    var s3 := Rotr45(r.s3);
    var s := Unstep(r);
    var s2 := Xor(r.s1, s.s1);
    XorTwice(s2, s.s0);
    XorTwice(s3, s.s1);
    XorTwice(r.s1, s.s1);
    XorSwap(s.s1, s2);
    XorTwice(r.s0, s3);
    RotlRotr(r.s3);
    LastWord(r.s1, r.s2, s.s1);
  }

  lemma LastWord(a: bv64, b: bv64, x: bv64)
    requires x == Unshift17(Xor(a, b))
    ensures Xor(Xor(a, x), Shl17(x)) == b
  {
    ShiftUnshift(Xor(a, b));
    XorChain(a, x, Shl17(x));
    XorSwap(a, b);
    XorTwice(b, a);
    XorSwap(Xor(x, Shl17(x)), a);
  }

  lemma XorChainWord(x: bv64, y: bv64, z: bv64) ensures Xor(x ^ y, z) == Xor(x, y ^ z) {}
  lemma XorChain(x: bv64, y: bv64, z: bv64)
    ensures Xor(Xor(x, y), z) == Xor(x, Xor(y, z)) { XorChainWord(x, y, z); }

  // ---------------------------------------------------------------- runs

  /** The state after n words. */
  function Steps(s: State, n: nat): State {
    if n == 0 then s else Step(Steps(s, n - 1))
  }

  lemma {:induction false} StepsCompose(s: State, m: nat, n: nat)
    ensures Steps(Steps(s, m), n) == Steps(s, m + n)
  {
    if n > 0 {
      StepsCompose(s, m, n - 1);
    }
  }

  /** Distinct states stay distinct however long both generators run. */
  lemma {:induction false} RunsNeverMeet(s: State, r: State, n: nat)
    requires Steps(s, n) == Steps(r, n)
    ensures s == r
  {
    if n > 0 {
      StepInvertible(Steps(s, n - 1));
      StepInvertible(Steps(r, n - 1));
      RunsNeverMeet(s, r, n - 1);
    }
  }

  lemma {:induction false} ZeroStays(n: nat)
    ensures Steps(ZERO, n) == ZERO
  {
    if n > 0 {
      ZeroStays(n - 1);
    }
  }

  /** No seeded run reaches the all-zero state, from which the generator could not leave. */
  lemma SeededRunNeverZero(seed: bv64, n: nat)
    ensures Steps(New(seed), n) != ZERO
  {
    SeedWordsDistinct(seed);
    ZeroStays(n);
    if Steps(New(seed), n) == ZERO {
      RunsNeverMeet(New(seed), ZERO, n);
    }
  }

  /** Two seeds whose generators are ever in the same state after equally many words are equal. */
  lemma SeedsNeverMeet(a: bv64, b: bv64, n: nat)
    requires Steps(New(a), n) == Steps(New(b), n)
    ensures a == b
  {
    RunsNeverMeet(New(a), New(b), n);
    SeedRecoverable(a);
    SeedRecoverable(b);
  }

  /** A run that repeats a state has come back to its start: there is no lead-in to the cycle. */
  lemma RepeatReturnsToStart(s: State, i: nat, j: nat)
    requires i <= j && Steps(s, i) == Steps(s, j)
    ensures Steps(s, j - i) == s
  {
    StepsCompose(s, j - i, i);
    RunsNeverMeet(s, Steps(s, j - i), i);
  }

  // ---------------------------------------------------------------- bytes

  /** The low n bytes of a word, lowest first. */
  function LowBytes(w: bv64, n: nat): (b: seq<bv8>)
    ensures |b| == n
  {
    if n == 0 then [] else [Low(w)] + LowBytes(w >> 8, n - 1)
  }

  function LittleEndian(w: bv64): (b: seq<bv8>)
    ensures |b| == 8
  {
    LowBytes(w, 8)
  }

  function Low(w: bv64): bv8 { (w & 0xFF) as bv8 }

  /** Byte j of word number k. */
  function WordByte(s: State, k: nat, j: nat): bv8
    requires j < 8
  {
    LittleEndian(Output(Steps(s, k)))[j]
  }

  /** Byte i of the endless little-endian word stream. */
  function StreamByte(s: State, i: nat): bv8 { WordByte(s, i / 8, i % 8) }

  /** What a fill of `len` bytes writes: a prefix of the stream. */
  function Fill(s: State, len: nat): (b: seq<bv8>)
    ensures |b| == len
  {
    seq(len, i requires 0 <= i => StreamByte(s, i))
  }

  /** Words drawn to fill `len` bytes. */
  function WordsFor(len: nat): nat { (len + 7) / 8 }

  lemma StreamAt(s: State, i: nat, k: nat, j: nat)
    requires j < 8 && i == 8 * k + j
    ensures StreamByte(s, i) == WordByte(s, k, j)
  {
    Split8(i, k, j);
  }

  lemma Split8(i: nat, k: nat, j: nat)
    requires j < 8 && i == 8 * k + j
    ensures i / 8 == k && i % 8 == j
  {
  }

  lemma StreamShift(s: State, n: nat, i: nat, at: nat)
    requires at == 8 * n + i
    ensures StreamByte(s, at) == StreamByte(Steps(s, n), i)
  {
    ShiftedWord(s, n, i / 8, i % 8);
    StreamAt(s, at, n + i / 8, i % 8);
  }

  lemma ShiftedWord(s: State, n: nat, k: nat, j: nat)
    requires j < 8
    ensures WordByte(Steps(s, n), k, j) == WordByte(s, n + k, j)
  {
    StepsCompose(s, n, k);
  }

  lemma Join<T>(head: seq<T>, tail: seq<T>, whole: seq<T>)
    requires |whole| == |head| + |tail|
    requires (forall i :: 0 <= i < |head| ==> head[i] == whole[i])
    requires (forall j :: 0 <= j < |tail| ==> tail[j] == whole[|head| + j])
    ensures head + tail == whole
  {
  }

  lemma FillAt(s: State, len: nat, i: nat)
    requires i < len
    ensures Fill(s, len)[i] == StreamByte(s, i)
  {
  }

  lemma TailByte(s: State, next: State, n: nat, b: nat, j: nat, at: nat, len: nat)
    requires j < b && next == Steps(s, n) && at == 8 * n + j && len == 8 * n + b
    ensures Fill(next, b)[j] == Fill(s, len)[at]
  {
    StreamShift(s, n, j, at);
    FillAt(next, b, j);
    FillAt(s, len, at);
  }

  lemma HeadByte(s: State, len: nat, more: nat, i: nat)
    requires i < len
    ensures Fill(s, len)[i] == Fill(s, len + more)[i]
  {
    FillAt(s, len, i);
    FillAt(s, len + more, i);
  }

  /** Filling whole words and then `b` bytes writes what one fill of all the bytes writes. */
  lemma FillsCompose(s: State, n: nat, b: nat)
    ensures Fill(s, 8 * n) + Fill(Steps(s, n), b) == Fill(s, 8 * n + b)
  {
    FillsComposeAt(s, n, 8 * n, b, 8 * n + b, Steps(s, n));
  }

  lemma FillsComposeAt(s: State, n: nat, len: nat, b: nat, total: nat, next: State)
    requires len == 8 * n && total == len + b && next == Steps(s, n)
    ensures Fill(s, len) + Fill(next, b) == Fill(s, total)
  {
    var head, tail, whole := Fill(s, len), Fill(next, b), Fill(s, total);
    forall i | 0 <= i < |head| ensures head[i] == whole[i] { HeadByte(s, len, b, i); }
    forall j | 0 <= j < |tail| ensures tail[j] == whole[|head| + j] {
      TailByte(s, next, n, b, j, len + j, total);
    }
    Join(head, tail, whole);
  }

  /** ... and leaves the same state. */
  lemma FillStatesCompose(s: State, n: nat, b: nat)
    ensures Steps(Steps(s, WordsFor(8 * n)), WordsFor(b)) == Steps(s, WordsFor(8 * n + b))
  {
    WordsForWhole(n, 0);
    WordsForWhole(n, b);
    StepsCompose(s, n, WordsFor(b));
  }

  lemma WordsForWhole(n: nat, b: nat)
    ensures WordsFor(8 * n + b) == n + WordsFor(b)
  {
  }

  /** Two fills in a row write what one fill of all the bytes writes. */
  ghost predicate FillsJoin(s: State, a: nat, b: nat) {
    Fill(s, a) + Fill(Steps(s, WordsFor(a)), b) == Fill(s, a + b)
  }

  /** Away from multiples of eight a fill drops the rest of its last word, so the next fill starts at the
      following word: splitting a fill is harmless from every state exactly at a multiple of eight, or when
      nothing follows. */
  lemma FillsJoinIff(a: nat, b: nat)
    ensures (forall s :: FillsJoin(s, a, b)) <==> a % 8 == 0 || b == 0
  {
    if a % 8 == 0 {
      forall s ensures FillsJoin(s, a, b) { WholeWordsJoin(s, a, b); }
    } else if b == 0 {
      forall s ensures FillsJoin(s, a, b) { NothingJoins(s, a); }
    } else {
      var s := Rewind(RAW, a / 8);
      RawWordsDiffer(a % 8);
      SplitLosesBytes(s, RAW, a, b, a / 8, a % 8);
    }
  }

  lemma WholeWordsJoin(s: State, a: nat, b: nat)
    requires a % 8 == 0
    ensures FillsJoin(s, a, b)
  {
    WholeWords(s, a, a / 8, b);
  }

  lemma WholeWords(s: State, a: nat, n: nat, b: nat)
    requires a == 8 * n
    ensures FillsJoin(s, a, b)
  {
    WordsForWhole(n, 0);
    assert WordsFor(a) == n;
    FillsComposeAt(s, n, a, b, a + b, Steps(s, WordsFor(a)));
  }

  lemma NothingJoins(s: State, a: nat)
    ensures FillsJoin(s, a, 0)
  {
    assert Fill(Steps(s, WordsFor(a)), 0) == [];
  }

  const RAW: State := State(1, 2, 3, 4)

  /** Every state is reached after n words from some state. */
  lemma {:induction false} Rewind(r: State, n: nat) returns (s: State)
    ensures Steps(s, n) == r
    decreases n
  {
    if n == 0 {
      s := r;
    } else {
      s := Rewind(Unstep(r), n - 1);
      UnstepInvertible(r);
    }
  }

  /** The byte after the split comes from the next word instead of the rest of this one: it shows wherever the two
      differ. */
  lemma SplitLosesBytes(s: State, t: State, a: nat, b: nat, k: nat, j: nat)
    requires a == 8 * k + j && 0 < j < 8 && b > 0 && t == Steps(s, k)
    requires LittleEndian(Output(t))[j] != LittleEndian(Output(Step(t)))[0]
    ensures !FillsJoin(s, a, b)
  {
    WordsForPart(a, k, j);
    ByteAfterSplit(s, t, a, b, k, j);
    ByteOfWhole(s, t, a, b, k, j);
    DifferAt(Fill(s, a) + Fill(Steps(s, k + 1), b), Fill(s, a + b), a);
  }

  lemma ByteOfWhole(s: State, t: State, a: nat, b: nat, k: nat, j: nat)
    requires a == 8 * k + j && 0 < j < 8 && b > 0 && t == Steps(s, k)
    ensures Fill(s, a + b)[a] == LittleEndian(Output(t))[j]
  {
    FillAt(s, a + b, a);
    StreamAt(s, a, k, j);
    WordByteOf(s, t, k, j);
  }

  lemma ByteAfterSplit(s: State, t: State, a: nat, b: nat, k: nat, j: nat)
    requires a == 8 * k + j && 0 < j < 8 && b > 0 && t == Steps(s, k)
    ensures (Fill(s, a) + Fill(Steps(s, k + 1), b))[a] == LittleEndian(Output(Step(t)))[0]
  {
    var next := Steps(s, k + 1);
    FillAt(next, b, 0);
    StreamAt(next, 0, 0, 0);
    WordByteOf(next, next, 0, 0);
    FirstOfSecond(Fill(s, a), Fill(next, b));
  }

  lemma WordByteOf(s: State, t: State, k: nat, j: nat)
    requires j < 8 && t == Steps(s, k)
    ensures WordByte(s, k, j) == LittleEndian(Output(t))[j]
  {
  }

  lemma DifferAt<T>(u: seq<T>, v: seq<T>, i: nat)
    requires i < |u| && i < |v| && u[i] != v[i]
    ensures u != v
  {
  }

  lemma FirstOfSecond<T>(a: seq<T>, b: seq<T>)
    requires b != []
    ensures (a + b)[|a|] == b[0]
  {
  }

  lemma WordsForPart(a: nat, k: nat, j: nat)
    requires a == 8 * k + j && 0 < j < 8
    ensures WordsFor(a) == k + 1
  {
  }

  /** Only the lowest byte of the second reference word looks like this. */
  lemma RawWordsDiffer(j: nat)
    requires 0 < j < 8
    ensures LittleEndian(Output(RAW))[j] != LittleEndian(Output(Step(RAW)))[0]
  {
    ReferenceWords();
    assert LowBytes(0, 4) == [0, 0, 0, 0];
    assert LowBytes(0x02, 5) == [0x02] + LowBytes(0, 4);
    assert LowBytes(0x0280, 6) == [0x80] + LowBytes(0x02, 5);
    assert LowBytes(0x028000, 7) == [0x00] + LowBytes(0x0280, 6);
    assert LowBytes(0x02800001, 8) == [0x01] + LowBytes(0x028000, 7);
    assert LittleEndian(0x0000000003800067)[0] == 0x67;
  }

  /** The published vector of the reference implementation, from the raw state 1, 2, 3, 4. */
  lemma ReferenceWords()
    ensures var s := State(1, 2, 3, 4);
            && Output(s) == 0x0000000002800001
            && Output(Step(s)) == 0x0000000003800067
            && Output(Step(Step(s))) == 0x000CC00003800067
            && Output(Step(Step(Step(s)))) == 0x000CC201994400B2
            && Output(Step(Step(Step(Step(s))))) == 0x8012A2019AC433CD
  {
  }

  class Rng {
    var s0: bv64
    var s1: bv64
    var s2: bv64
    var s3: bv64

    function Contents(): State
      reads this
    {
      State(s0, s1, s2, s3)
    }

    constructor (seed: bv64)
      ensures Contents() == New(seed)
    {
      var x := seed;
      var z0, z1, z2, z3;
      x, z0 := SplitStep(x);
      x, z1 := SplitStep(x);
      x, z2 := SplitStep(x);
      x, z3 := SplitStep(x);
      if z0 == 0 && z1 == 0 && z2 == 0 && z3 == 0 {
        z0, z1, z2, z3 := FALLBACK.s0, FALLBACK.s1, FALLBACK.s2, FALLBACK.s3;
      }
      s0, s1, s2, s3 := z0, z1, z2, z3;
    }

    static method SplitStep(x0: bv64) returns (x: bv64, z: bv64)
      ensures x == Weyl(x0) && z == Mix(x)
    {
      x := Weyl(x0);
      z := Scale1(Fold30(x));
      z := Scale2(Fold27(z));
      z := Fold31(z);
    }

    method Next() returns (result: bv64)
      modifies this
      ensures result == Output(old(Contents())) && Contents() == Step(old(Contents()))
    {
      result := Scramble(s0, s3);
      var t := Shl17(s1);
      s2 := Xor(s2, s0);
      s3 := Xor(s3, s1);
      s1 := Xor(s1, s2);
      s0 := Xor(s0, s3);
      s2 := Xor(s2, t);
      s3 := Rotl45(s3);
    }

    method FillBytes(dest: array<bv8>)
      modifies this, dest
      ensures dest[..] == Fill(old(Contents()), dest.Length)
      ensures Contents() == Steps(old(Contents()), WordsFor(dest.Length))
    {
      ghost var s := Contents();
      var n := dest.Length / 8;
      var rest := dest.Length - 8 * n;
      WordsForWhole(n, rest);
      for k := 0 to n
        invariant Contents() == Steps(s, k)
        invariant forall i :: 0 <= i < 8 * k ==> dest[i] == StreamByte(s, i)
      {
        FillWord(dest, 8 * k, 8, s, k);
      }
      if rest != 0 {
        FillWord(dest, 8 * n, rest, s, n);
      }
    }

    /** Draw word number k and write its first bytes after the first k words. */
    method FillWord(dest: array<bv8>, at: nat, len: nat, ghost s: State, ghost k: nat)
      requires at == 8 * k && len <= 8 && at + len <= dest.Length
      requires Contents() == Steps(s, k) && forall i :: 0 <= i < at ==> dest[i] == StreamByte(s, i)
      modifies this, dest
      ensures Contents() == Steps(s, k + 1)
      ensures forall i :: 0 <= i < at + len ==> dest[i] == StreamByte(s, i)
    {
      var val := Next();
      CopyBytes(dest, at, LittleEndian(val)[..len]);
      forall i | at <= i < at + len ensures dest[i] == StreamByte(s, i) {
        StreamAt(s, i, k, i - at);
      }
    }

    static method CopyBytes(dest: array<bv8>, at: nat, bytes: seq<bv8>)
      requires at + |bytes| <= dest.Length
      modifies dest
      ensures forall i :: 0 <= i < at ==> dest[i] == old(dest[i])
      ensures forall i :: at <= i < at + |bytes| ==> dest[i] == bytes[i - at]
    {
      for i := 0 to |bytes|
        invariant forall k :: 0 <= k < at ==> dest[k] == old(dest[k])
        invariant forall k :: at <= k < at + i ==> dest[k] == bytes[k - at]
      {
        dest[at + i] := bytes[i];
      }
    }
  }
}
