/** The planners as they run: loops over the arena's arrays, proved against the meaning in
    `PinnedCache`. */
module PinnedCacheDevice {
  import opened Sets
  import opened PinnedCache
  import Runs = PinnedCacheRuns
  import Order = PinnedCacheOrder

  const INT64_MAX: int := 0x7FFF_FFFF_FFFF_FFFF
  const RANK0_SLOTS: nat := 217
  const RANK1_SLOTS: nat := 427
  const RANK0_HOT: nat := 62
  const RANK1_HOT: nat := 427

  function PinnedSlots(rank: int): nat { if rank == 0 then 0 else 400 }

  /** `(admitted << 8) | absent`. The fields are disjoint, as `OrIsSum` shows on 32-bit words, so the
      bitwise or is a sum, the shift a division and the mask a remainder. */
  function Pack(admitted: nat, absent: nat): nat
    requires admitted <= 64 && absent <= 64
  {
    admitted * 256 + absent
  }

  lemma OrIsSum(a: bv32, b: bv32)
    requires a <= 64 && b <= 64
    ensures (a << 8) | b == a * 256 + b
    ensures ((a << 8) | b) >> 8 == a && ((a << 8) | b) & 255 == b
  {
  }

  /** The warm start: the hot list fills the first slots, all clocks are zero. */
  function Warm(hot: seq<int>, cap: nat): Cache
    requires |hot| <= cap
  {
    Cache(seq(cap, s requires 0 <= s => if s < |hot| then hot[s] else -1),
          seq(EXPERTS, e => IndexOf(hot, e, 0)),
          seq(cap, s => 0), 0)
  }

  function IndexOf(hot: seq<int>, e: int, from: nat): (i: int)
    requires from <= |hot|
    ensures i == -1 ==> e !in hot[from..]
    ensures i >= 0 ==> from <= i < |hot| && hot[i] == e
    ensures -1 <= i
    decreases |hot| - from
  {
    if from == |hot| then -1 else if hot[from] == e then from else IndexOf(hot, e, from + 1)
  }

  lemma WarmIsValid(hot: seq<int>, cap: nat)
    requires |hot| <= cap && ValidIds(hot) && NoDup(hot)
    ensures Warm(hot, cap).Valid(cap) && Warm(hot, cap).event == 0
    ensures forall s :: 0 <= s < |hot| ==> Warm(hot, cap).tags[s] == hot[s]
  {
  }

  class Arena {
    const cap: nat
    const tags: array<int>
    const slotOf: array<int>
    const clock: array<int>
    var event: int

    ghost predicate Shape() {
      && tags.Length == clock.Length == cap && slotOf.Length == EXPERTS
      && tags != clock && tags != slotOf && clock != slotOf
    }

    ghost function Contents(): Cache
      reads this, tags, slotOf, clock
    {
      Cache(tags[..], slotOf[..], clock[..], event)
    }

    constructor (cap: nat)
      ensures Shape() && this.cap == cap && fresh(tags) && fresh(slotOf) && fresh(clock)
    {
      this.cap := cap;
      tags := new int[cap];
      slotOf := new int[EXPERTS];
      clock := new int[cap];
      event := 0;
    }

    /** Distinct requests in first-touch order. */
    static method Unique(ids: seq<int>) returns (uniq: seq<int>)
      requires ValidIds(ids)
      ensures uniq == Distinct(ids)
    {
      var seen := seq(EXPERTS, _ => false);
      uniq := [];
      for r := 0 to |ids|
        invariant |seen| == EXPERTS
        invariant uniq == Distinct(ids[..r])
        invariant forall e :: 0 <= e < EXPERTS ==> (seen[e] <==> e in uniq)
      {
        assert ids[..r + 1][..r] == ids[..r];
        if !seen[ids[r]] {
          seen := seen[ids[r] := true];
          uniq := uniq + [ids[r]];
        }
      }
      assert ids[..|ids|] == ids;
    }

    /** Split the requests: mark the slots of the hits, collect the misses. */
    method Classify(uniq: seq<int>) returns (prot: seq<bool>, misses: seq<int>)
      requires Shape() && Contents().Valid(cap) && ValidIds(uniq) && NoDup(uniq)
      ensures misses == Misses(Contents(), uniq)
      ensures |prot| == cap && forall s :: 0 <= s < cap ==> (prot[s] <==> tags[s] in uniq)
    {
      prot := seq(cap, _ => false);
      misses := [];
      for i := 0 to |uniq|
        invariant |prot| == cap
        invariant misses == Misses(Contents(), uniq[..i])
        invariant forall s :: 0 <= s < cap ==> (prot[s] <==> tags[s] in uniq[..i])
      {
        assert uniq[..i + 1][..i] == uniq[..i];
        var s := slotOf[uniq[i]];
        if s >= 0 {
          prot := prot[s := true];
        } else {
          misses := misses + [uniq[i]];
        }
      }
      assert uniq[..|uniq|] == uniq;
    }

    /** The lowest empty slot, else the unprotected unpinned slot with the smallest clock. */
    method FindTarget(ghost uniq: seq<int>, prot: seq<bool>, pinned: nat) returns (target: int)
      requires Shape() && Contents().Valid(cap)
      requires |prot| == cap && forall s :: 0 <= s < cap ==> (prot[s] <==> tags[s] in uniq)
      ensures target == Target(Contents(), uniq, pinned)
    {
      ghost var c := Contents();
      target := -1;
      var s := 0;
      while s < cap
        invariant 0 <= s <= cap
        invariant target == -1 && FirstFree(c.tags, 0) == FirstFree(c.tags, s)
      {
        if tags[s] < 0 {
          return s;
        }
        s := s + 1;
      }
      var best := -1;
      s := pinned;
      NothingPinned(c, uniq, pinned, if pinned < cap then pinned else cap);
      while s < cap
        invariant pinned <= s && (pinned <= cap ==> s <= cap)
        invariant target == LeastClock(c, uniq, pinned, if s < cap then s else cap)
        invariant best == if target < 0 then -1 else clock[target]
      {
        if tags[s] >= 0 && !prot[s] && (best < 0 || clock[s] < best) {
          best := clock[s];
          target := s;
        }
        s := s + 1;
      }
    }

    static lemma NothingPinned(c: Cache, uniq: seq<int>, pinned: nat, hi: nat)
      requires hi <= pinned && hi <= |c.tags| == |c.clock|
      ensures LeastClock(c, uniq, pinned, hi) == -1
    {
    }

    /** Give slot `target` to expert e. */
    method PlaceIn(e: int, target: int)
      requires Shape() && Contents().Valid(cap) && 0 <= e < EXPERTS && 0 <= target < cap
      modifies tags, slotOf
      ensures Contents() == Place(old(Contents()), e, target)
    {
      if tags[target] >= 0 {
        slotOf[tags[target]] := -1;
      }
      tags[target] := e;
      slotOf[e] := target;
    }

    /** Find a slot for one missing expert and put it there; -1 when no slot can be taken. */
    method AdmitNext(uniq: seq<int>, prot: seq<bool>, e: int, pinned: nat) returns (target: int)
      requires Shape() && Contents().Valid(cap) && 0 <= e < EXPERTS && !Contents().Resident(e)
      requires |prot| == cap && forall s :: 0 <= s < cap ==> (prot[s] <==> tags[s] in uniq)
      modifies tags, slotOf
      ensures target == Target(old(Contents()), uniq, pinned)
      ensures target < 0 ==> Contents() == old(Contents())
      ensures target >= 0 ==> Contents() == Place(old(Contents()), e, target) && Contents().Valid(cap)
    {
      ghost var c := Contents();
      target := FindTarget(uniq, prot, pinned);
      if target >= 0 {
        PlaceIn(e, target);
        Runs.PlaceKeepsValid(c, cap, e, target);
      }
    }

    /** The protected slots are those whose expert was requested. */
    ghost predicate Protects(prot: seq<bool>, uniq: seq<int>)
      reads this, tags
    {
      |prot| == cap == tags.Length && forall s :: 0 <= s < cap ==> (prot[s] <==> tags[s] in uniq)
    }

    /** What holds between admissions: `rest` are requested experts still without a slot. */
    ghost predicate Admitting(prot: seq<bool>, uniq: seq<int>, rest: seq<int>)
      reads this, tags, slotOf, clock
    {
      && Contents().Valid(cap) && Protects(prot, uniq) && ValidIds(rest) && NoDup(rest)
      && Runs.AllMissing(Contents(), rest) && forall k :: 0 <= k < |rest| ==> rest[k] in uniq
    }

    /** Admit the first candidate, and protect its slot. */
    method AdmitFirst(uniq: seq<int>, prot0: seq<bool>, rest: seq<int>, pinned: nat) returns (target: int, prot: seq<bool>)
      requires Shape() && Admitting(prot0, uniq, rest) && rest != []
      modifies tags, slotOf
      ensures target == Target(old(Contents()), uniq, pinned)
      ensures target < 0 ==> Contents() == old(Contents())
      ensures target >= 0 ==> Contents() == Place(old(Contents()), rest[0], target) && Admitting(prot, uniq, rest[1..])
    {
      ghost var c := Contents();
      target := AdmitNext(uniq, prot0, rest[0], pinned);
      prot := prot0;
      if target >= 0 {
        prot := prot0[target := true];
        StillMissing(c, cap, rest, target);
        assert tags[..] == c.tags[target := rest[0]];
      }
    }

    /** Admit candidates until the list ends, or until no slot can be taken. */
    method AdmitMisses(uniq: seq<int>, prot0: seq<bool>, cands: seq<int>, pinned: nat) returns (admitted: nat)
      requires Shape() && Admitting(prot0, uniq, cands)
      modifies tags, slotOf
      ensures Contents() == Admit(old(Contents()), uniq, cands, pinned).cache
      ensures admitted == Admit(old(Contents()), uniq, cands, pinned).admitted
    {
      ghost var whole := Admit(Contents(), uniq, cands, pinned);
      var prot := prot0;
      admitted := 0;
      assert cands[0..] == cands;
      while admitted < |cands|
        invariant admitted <= |cands| && Admitting(prot, uniq, cands[admitted..])
        invariant Remains(whole, Contents(), uniq, cands[admitted..], pinned, admitted)
      {
        var target;
        target, prot := AdmitStep(uniq, prot, cands, admitted, pinned, whole);
        if target < 0 {
          return;
        }
        admitted := admitted + 1;
      }
    }

    /** One round of the loop, `admitted` candidates in. */
    method AdmitStep(uniq: seq<int>, prot0: seq<bool>, cands: seq<int>, admitted: nat, pinned: nat, ghost whole: Admission)
      returns (target: int, prot: seq<bool>)
      requires Shape() && admitted < |cands| && Admitting(prot0, uniq, cands[admitted..])
      requires Remains(whole, Contents(), uniq, cands[admitted..], pinned, admitted)
      modifies tags, slotOf
      ensures target < 0 ==> Contents() == whole.cache && whole.admitted == admitted
      ensures target >= 0 ==> Admitting(prot, uniq, cands[admitted + 1..])
                              && Remains(whole, Contents(), uniq, cands[admitted + 1..], pinned, admitted + 1)
    {
      ghost var c, rest := Contents(), cands[admitted..];
      target, prot := AdmitFirst(uniq, prot0, cands[admitted..], pinned);
      RemainsNext(whole, c, uniq, rest, pinned, admitted);
      assert rest[1..] == cands[admitted + 1..];
    }

    static lemma StillMissing(c: Cache, cap: nat, rest: seq<int>, target: int)
      requires c.Valid(cap) && ValidIds(rest) && NoDup(rest) && rest != [] && 0 <= target < cap
      requires Runs.AllMissing(c, rest)
      ensures Runs.AllMissing(Place(c, rest[0], target), rest[1..])
    {
      Runs.PlaceKeepsValid(c, cap, rest[0], target);
    }

    /** What is left to admit, after `admitted` admissions of the whole. */
    ghost static predicate Remains(whole: Admission, c: Cache, uniq: seq<int>, rest: seq<int>, pinned: nat, admitted: nat) {
      && |c.tags| == |c.clock| && |c.slotOf| == EXPERTS && ValidIds(rest)
      && (forall s :: 0 <= s < |c.tags| ==> c.tags[s] < EXPERTS)
      && whole.cache == Admit(c, uniq, rest, pinned).cache
      && whole.admitted == Admit(c, uniq, rest, pinned).admitted + admitted
    }

    static lemma RemainsNext(whole: Admission, c: Cache, uniq: seq<int>, rest: seq<int>, pinned: nat, admitted: nat)
      requires Remains(whole, c, uniq, rest, pinned, admitted) && rest != []
      ensures var t := Target(c, uniq, pinned);
              && (t < 0 ==> whole.cache == c && whole.admitted == admitted)
              && (t >= 0 ==> Remains(whole, Place(c, rest[0], t), uniq, rest[1..], pinned, admitted + 1))
    {
    }

    /** Stamp the slots of the resident requests and advance the event number. */
    method Stamp(uniq: seq<int>)
      requires Shape() && Contents().Valid(cap) && ValidIds(uniq)
      modifies clock, this`event
      ensures Contents() == Touch(old(Contents()), uniq)
    {
      ghost var c := Contents();
      for i := 0 to |uniq|
        invariant tags[..] == c.tags && slotOf[..] == c.slotOf && event == c.event
        invariant forall s :: 0 <= s < cap ==>
                    clock[s] == if c.tags[s] in uniq[..i] then c.event + 1 else c.clock[s]
      {
        var s := slotOf[uniq[i]];
        if s >= 0 {
          clock[s] := event + 1;
        }
        assert uniq[..i + 1] == uniq[..i] + [uniq[i]];
      }
      assert uniq[..|uniq|] == uniq;
      event := event + 1;
    }

    method CountAbsent(ids: seq<int>) returns (absent: nat)
      requires Shape() && ValidIds(ids)
      ensures absent == AbsentPositions(Contents(), ids)
    {
      var hits := 0;
      for r := 0 to |ids|
        invariant hits <= r && r - hits == AbsentPositions(Contents(), ids[..r])
      {
        assert ids[..r + 1][..r] == ids[..r];
        if slotOf[ids[r]] >= 0 { hits := hits + 1; }
      }
      assert ids[..|ids|] == ids;
      absent := |ids| - hits;
    }

    /** Classify, admit and stamp: the part of an event both planners share. */
    method PlanEvent(ids: seq<int>, pinned: nat, maxInserts: nat) returns (admitted: nat, missed: nat, skip: bool)
      requires Shape() && Contents().Valid(cap) && ValidIds(ids)
      modifies tags, slotOf, clock, this`event
      ensures Contents() == Step(old(Contents()), ids, pinned, maxInserts)
      ensures admitted == AdmitEvent(old(Contents()), Distinct(ids), pinned, maxInserts).admitted
      ensures missed == |Misses(old(Contents()), Distinct(ids))| && admitted <= missed
      ensures admitted <= maxInserts
      ensures skip == (|Distinct(ids)| > cap / 2)
    {
      var uniq := Unique(ids);
      skip := |uniq| > cap / 2;
      var prot, misses := Classify(uniq);
      missed := |misses|;
      ghost var c := Contents();
      var cands := if skip then [] else if |misses| <= maxInserts then misses else misses[..maxInserts];
      assert cands == Candidates(c, uniq, maxInserts);
      Runs.CandidatesMissing(c, cap, uniq, maxInserts);
      Runs.AdmitKeepsValid(c, cap, uniq, cands, pinned);
      admitted := AdmitMisses(uniq, prot, cands, pinned);
      Stamp(uniq);
    }

    /** One replayed event. The source's buffers hold 64 requests. */
    method PinnedPlanner(ids: seq<int>, pinned: nat) returns (packed: nat, uncached: int)
      requires Shape() && Contents().Valid(cap) && ValidIds(ids) && |ids| <= 64 && event < INT64_MAX
      modifies tags, slotOf, clock, this`event
      ensures Contents() == Step(old(Contents()), ids, pinned, MAX_INSERTS)
      ensures packed / 256 == AdmitEvent(old(Contents()), Distinct(ids), pinned, MAX_INSERTS).admitted
      ensures packed % 256 == AbsentPositions(Contents(), ids)
      ensures uncached == |Misses(old(Contents()), Distinct(ids))| - packed / 256
    {
      Runs.StepKeepsValid(Contents(), cap, ids, pinned, MAX_INSERTS);
      var admitted, missed, _ := PlanEvent(ids, pinned, MAX_INSERTS);
      var absent := CountAbsent(ids);
      packed := Pack(admitted, absent);
      uncached := missed - admitted;
    }

    /** Warm start. A hot list of the wrong length, out of range or with a repeated id is refused before
        anything is written. */
    method Init(hot: seq<int>, rank: int) returns (ok: bool)
      requires Shape() && (rank == 0 || rank == 1 || HotSlots(rank) <= cap)
      modifies tags, slotOf, clock, this`event
      ensures ok <==> AcceptsHot(hot, rank, cap)
      ensures ok ==> Contents() == Warm(hot, cap) && Contents().Valid(cap)
      ensures !ok ==> Contents() == old(Contents())
    {
      if (rank == 0 && cap != RANK0_SLOTS) || (rank == 1 && cap != RANK1_SLOTS) {
        return false;
      }
      if |hot| != HotSlots(rank) {
        return false;
      }
      var seen := seq(EXPERTS, _ => false);
      for i := 0 to |hot|
        invariant |seen| == EXPERTS
        invariant ValidIds(hot[..i]) && NoDup(hot[..i])
        invariant forall e :: 0 <= e < EXPERTS ==> (seen[e] <==> e in hot[..i])
      {
        assert hot[..i + 1] == hot[..i] + [hot[i]];
        if hot[i] < 0 || hot[i] >= EXPERTS || seen[hot[i]] {
          assert !(ValidIds(hot) && NoDup(hot));
          return false;
        }
        seen := seen[hot[i] := true];
      }
      assert hot[..|hot|] == hot;
      Clear();
      Fill(hot);
      WarmIsValid(hot, cap);
      ok := true;
    }

    method Clear()
      requires Shape()
      modifies tags, slotOf, clock, this`event
      ensures event == 0 && forall k :: 0 <= k < cap ==> clock[k] == 0 && tags[k] == -1
      ensures forall e :: 0 <= e < EXPERTS ==> slotOf[e] == -1
    {
      event := 0;
      for s := 0 to cap
        invariant event == 0
        invariant forall k :: 0 <= k < s ==> clock[k] == 0 && tags[k] == -1
      {
        clock[s] := 0;
        tags[s] := -1;
      }
      for e := 0 to EXPERTS
        invariant event == 0
        invariant forall k :: 0 <= k < e ==> slotOf[k] == -1
        invariant forall k :: 0 <= k < cap ==> clock[k] == 0 && tags[k] == -1
      {
        slotOf[e] := -1;
      }
    }

    /** Puts the hot experts into the first slots of a cleared arena. */
    method Fill(hot: seq<int>)
      requires Shape() && ValidIds(hot) && NoDup(hot) && |hot| <= cap
      requires event == 0 && forall k :: 0 <= k < cap ==> clock[k] == 0 && tags[k] == -1
      requires forall e :: 0 <= e < EXPERTS ==> slotOf[e] == -1
      modifies tags, slotOf, clock
      ensures Contents() == Warm(hot, cap)
    {
      for i := 0 to |hot|
        invariant forall k :: 0 <= k < cap ==> clock[k] == 0 && tags[k] == if k < i then hot[k] else -1
        invariant forall e :: 0 <= e < EXPERTS && slotOf[e] >= 0 ==> slotOf[e] < i && hot[slotOf[e]] == e
        invariant forall e :: 0 <= e < EXPERTS && slotOf[e] < 0 ==> slotOf[e] == -1 && e !in hot[..i]
      {
        tags[i] := hot[i];
        slotOf[hot[i]] := i;
        clock[i] := 0;
        assert hot[..i + 1] == hot[..i] + [hot[i]];
      }
      assert hot[..|hot|] == hot && hot[0..] == hot;
      forall e | 0 <= e < EXPERTS ensures slotOf[e] == IndexOf(hot, e, 0) { }
      assert tags[..] == Warm(hot, cap).tags && slotOf[..] == Warm(hot, cap).slotOf && clock[..] == Warm(hot, cap).clock;
    }

    /** The planner of the serving path: it refuses bad requests and pins what the rank pins. */
    method DevicePlanner(ids: seq<int>, rank: int, maxInserts: int, strict: bool) returns (admitted: int)
      requires Shape() && Contents().Valid(cap)
      modifies tags, slotOf, clock, this`event
      ensures admitted == -1 <==> !AcceptsEvent(ids, rank, cap, maxInserts, strict, old(event))
      ensures admitted == -1 ==> Contents() == old(Contents())
      ensures admitted != -1 ==>
                && Contents() == Step(old(Contents()), ids, PinnedSlots(rank), maxInserts)
                && admitted == AdmitEvent(old(Contents()), Distinct(ids), PinnedSlots(rank), maxInserts).admitted
      ensures rank != 0 ==> forall s :: 0 <= s < 400 && s < cap && old(tags[s]) >= 0 ==> tags[s] == old(tags[s])
    {
      ghost var c := Contents();
      if (rank == 0 && cap != RANK0_SLOTS) || (rank == 1 && cap != RANK1_SLOTS) { return -1; }
      if maxInserts < 0 || maxInserts > MAX_INSERTS { return -1; }
      if strict {
        if |ids| != 10 && |ids| != 50 { return -1; }
      } else {
        if |ids| <= 0 || |ids| > 64 { return -1; }
      }
      for r := 0 to |ids|
        invariant ValidIds(ids[..r])
      {
        if ids[r] < 0 || ids[r] >= EXPERTS { return -1; }
      }
      assert ids[..|ids|] == ids;
      if event < 0 || event >= INT64_MAX { return -1; }
      var missed, skip;
      admitted, missed, skip := PlanEvent(ids, PinnedSlots(rank), maxInserts);
      Runs.StepKeepsValid(c, cap, ids, PinnedSlots(rank), maxInserts);
    }
  }

  function HotSlots(rank: int): nat { if rank == 0 then RANK0_HOT else RANK1_HOT }

  ghost predicate AcceptsHot(hot: seq<int>, rank: int, cap: nat) {
    && (rank == 0 ==> cap == RANK0_SLOTS) && (rank == 1 ==> cap == RANK1_SLOTS)
    && |hot| == HotSlots(rank) && |hot| <= cap && ValidIds(hot) && NoDup(hot)
  }

  ghost predicate AcceptsEvent(ids: seq<int>, rank: int, cap: nat, maxInserts: int, strict: bool, event: int) {
    && (rank == 0 ==> cap == RANK0_SLOTS) && (rank == 1 ==> cap == RANK1_SLOTS)
    && 0 <= maxInserts <= MAX_INSERTS
    && (if strict then |ids| == 10 || |ids| == 50 else 0 < |ids| <= 64)
    && ValidIds(ids) && 0 <= event < INT64_MAX
  }

  // ---------------------------------------------------------------- the replay tool

  /** What a stretch of a replay adds up to: admissions, distinct requests left uncached, request positions left
      without a slot. */
  datatype Totals = Totals(admitted: nat, uncached: int, absent: nat) {
    function Plus(t: Totals): Totals {
      Totals(admitted + t.admitted, uncached + t.uncached, absent + t.absent)
    }
  }

  ghost function EventTotals(c: Cache, cap: nat, ids: seq<int>, pinned: nat): Totals
    requires c.Valid(cap) && ValidIds(ids)
  {
    var admitted := AdmitEvent(c, Distinct(ids), pinned, MAX_INSERTS).admitted;
    Totals(admitted, |Misses(c, Distinct(ids))| - admitted, AbsentPositions(Step(c, ids, pinned, MAX_INSERTS), ids))
  }

  /** In terms of experts and positions: those that entered, the requested ones left without a slot, and the positions
      that ask for one of these. */
  lemma EventTotalsMean(c: Cache, cap: nat, ids: seq<int>, pinned: nat)
    requires c.Valid(cap) && ValidIds(ids)
    ensures var t, after := EventTotals(c, cap, ids, pinned), Step(c, ids, pinned, MAX_INSERTS);
            && t.admitted == |after.Residents() - c.Residents()|
            && t.uncached == |ToSet(ids) - after.Residents()|
            && t.absent == |Order.AbsentAt(after, ids)|
  {
    Order.EnteringIsAdmitted(c, cap, ids, pinned, MAX_INSERTS);
    Order.UncachedCount(c, cap, ids, pinned, MAX_INSERTS);
    Order.AbsentCount(Step(c, ids, pinned, MAX_INSERTS), ids);
  }

  /** On rank 0 every slot is open to eviction, on the other rank the slots from 400 on. */
  lemma RankPins(c: Cache, ids: seq<int>, rank: int, s: int)
    ensures Order.Open(c, ids, PinnedSlots(rank), s)
            <==> 0 <= s < |c.tags| && (c.tags[s] < 0 || (c.tags[s] !in ids && (rank == 0 || s >= 400)))
  {
  }

  /** The sizes of the two ranks, their hot lists, and what a serving event may ask. */
  lemma RankSizes(hot: seq<int>, ids: seq<int>, rank: int, cap: nat, maxInserts: int, strict: bool, event: int)
    ensures AcceptsHot(hot, 0, cap) ==> cap == 217 && |hot| == 62
    ensures AcceptsHot(hot, 1, cap) ==> cap == 427 && |hot| == 427
    ensures ValidIds(hot) && NoDup(hot) && |hot| == 62 ==> AcceptsHot(hot, 0, 217)
    ensures ValidIds(hot) && NoDup(hot) && |hot| == 427 ==> AcceptsHot(hot, 1, 427)
    ensures AcceptsEvent(ids, rank, cap, maxInserts, strict, event) ==>
              (rank == 0 ==> cap == 217) && (rank == 1 ==> cap == 427) && 0 <= maxInserts <= 64
              && 1 <= |ids| <= 64 && forall i :: 0 <= i < |ids| ==> 0 <= ids[i] < 512
    ensures |ids| in {10, 50} && 0 <= event < 0x7FFF_FFFF_FFFF_FFFF && 0 <= maxInserts <= 64
            && (forall i :: 0 <= i < |ids| ==> 0 <= ids[i] < 512) ==>
              AcceptsEvent(ids, 0, 217, maxInserts, strict, event) && AcceptsEvent(ids, 1, 427, maxInserts, strict, event)
    ensures |ids| !in {10, 50} ==> !AcceptsEvent(ids, rank, cap, maxInserts, true, event)
    ensures event < 0 || event >= 0x7FFF_FFFF_FFFF_FFFF ==> !AcceptsEvent(ids, rank, cap, maxInserts, strict, event)
  {
  }

  /** The totals over the events of h, from c. */
  ghost function Tally(c: Cache, cap: nat, h: seq<seq<int>>, pinned: nat): Totals
    requires c.Valid(cap) && Runs.ValidHistory(h)
  {
    if h == [] then Totals(0, 0, 0)
    else
      var p := h[..|h| - 1];
      Tally(c, cap, p, pinned).Plus(EventTotals(Runs.Run(c, cap, p, pinned, MAX_INSERTS), cap, h[|h| - 1], pinned))
  }

  lemma {:induction false} RunEvent(c: Cache, cap: nat, h: seq<seq<int>>, pinned: nat)
    requires c.Valid(cap) && Runs.ValidHistory(h)
    ensures Runs.Run(c, cap, h, pinned, MAX_INSERTS).event == c.event + |h|
  {
    if h != [] {
      RunEvent(c, cap, h[..|h| - 1], pinned);
      StepEvent(Runs.Run(c, cap, h[..|h| - 1], pinned, MAX_INSERTS), cap, h[|h| - 1], pinned);
    }
  }

  lemma StepEvent(c: Cache, cap: nat, ids: seq<int>, pinned: nat)
    requires c.Valid(cap) && ValidIds(ids)
    ensures Step(c, ids, pinned, MAX_INSERTS).event == c.event + 1
  {
  }

  /** The state of a replay after the events of h. */
  ghost predicate Replayed(c: Cache, cap: nat, h: seq<seq<int>>, pinned: nat, now: Cache, totals: Totals) {
    && c.Valid(cap) && Runs.ValidHistory(h)
    && now == Runs.Run(c, cap, h, pinned, MAX_INSERTS) && totals == Tally(c, cap, h, pinned)
  }

  lemma ReplayedMore(c: Cache, cap: nat, h: seq<seq<int>>, ids: seq<int>, pinned: nat, now: Cache, totals: Totals)
    requires Replayed(c, cap, h, pinned, now, totals) && ValidIds(ids)
    ensures Replayed(c, cap, h + [ids], pinned, Step(now, ids, pinned, MAX_INSERTS),
                     totals.Plus(EventTotals(now, cap, ids, pinned)))
  {
    ReplayedNext(c, cap, h, h + [ids], ids, pinned, now, totals);
  }

  lemma ReplayedNext(c: Cache, cap: nat, h: seq<seq<int>>, more: seq<seq<int>>, ids: seq<int>, pinned: nat, now: Cache,
                     totals: Totals)
    requires Replayed(c, cap, h, pinned, now, totals) && ValidIds(ids) && more == h + [ids]
    ensures Replayed(c, cap, more, pinned, Step(now, ids, pinned, MAX_INSERTS),
                     totals.Plus(EventTotals(now, cap, ids, pinned)))
  {
    assert more[..|more| - 1] == h && more[|more| - 1] == ids;
    assert Runs.ValidHistory(more);
    TallyMore(c, cap, h, more, ids, pinned);
    RunMore(c, cap, h, more, ids, pinned);
  }

  lemma RunMore(c: Cache, cap: nat, h: seq<seq<int>>, more: seq<seq<int>>, ids: seq<int>, pinned: nat)
    requires c.Valid(cap) && Runs.ValidHistory(more) && more != [] && more[..|more| - 1] == h && more[|more| - 1] == ids
    ensures Runs.Run(c, cap, more, pinned, MAX_INSERTS) ==
            Step(Runs.Run(c, cap, h, pinned, MAX_INSERTS), ids, pinned, MAX_INSERTS)
  {
  }

  lemma TallyMore(c: Cache, cap: nat, h: seq<seq<int>>, more: seq<seq<int>>, ids: seq<int>, pinned: nat)
    requires c.Valid(cap) && Runs.ValidHistory(more) && more != [] && more[..|more| - 1] == h && more[|more| - 1] == ids
    ensures Tally(c, cap, more, pinned) ==
            Tally(c, cap, h, pinned).Plus(EventTotals(Runs.Run(c, cap, h, pinned, MAX_INSERTS), cap, ids, pinned))
  {
  }

  /** Two arenas that share nothing. */
  ghost predicate Apart(a: Arena, b: Arena)
    reads a, b
  {
    && a != b && a.Shape() && b.Shape() && a.cap == b.cap
    && {a.tags, a.slotOf, a.clock} !! {b.tags, b.slotOf, b.clock}
  }

  /** One event of the replay; at the rank's own pin count the serving planner takes it as well, and the two
      arenas are compared. */
  method ReplayEvent(replay: Arena, serving: Arena, ids: seq<int>, rank: int, pinned: nat)
    returns (totals: Totals, mismatch: bool)
    requires Apart(replay, serving) && replay.Contents().Valid(replay.cap)
    requires pinned == PinnedSlots(rank) ==> serving.Contents() == replay.Contents()
    requires AcceptsEvent(ids, rank, replay.cap, MAX_INSERTS, true, replay.event)
    modifies replay.tags, replay.slotOf, replay.clock, replay`event
    modifies serving.tags, serving.slotOf, serving.clock, serving`event
    ensures replay.Contents() == Step(old(replay.Contents()), ids, pinned, MAX_INSERTS)
    ensures totals == EventTotals(old(replay.Contents()), replay.cap, ids, pinned)
    ensures serving.Contents() == if pinned == PinnedSlots(rank) then replay.Contents() else old(serving.Contents())
    ensures !mismatch
  {
    var packed, uncached := replay.PinnedPlanner(ids, pinned);
    totals := Totals(packed / 256, uncached, packed % 256);
    mismatch := false;
    if pinned == PinnedSlots(rank) {
      var admitted := serving.DevicePlanner(ids, rank, MAX_INSERTS, true);
      mismatch := Differ(replay, serving);
    }
  }

  method Differ(a: Arena, b: Arena) returns (differ: bool)
    requires a.Shape() && b.Shape()
    ensures differ <==> a.Contents() != b.Contents()
  {
    differ := a.event != b.event || a.clock[..] != b.clock[..] || a.slotOf[..] != b.slotOf[..] || a.tags[..] != b.tags[..];
  }

  function First<T>(s: seq<T>, n: nat): seq<T> { if n < |s| then s[..n] else s }

  lemma FirstMore<T>(h: seq<T>, x: T, n: nat)
    ensures |h| < n ==> First(h, n) == h && First(h + [x], n) == h + [x]
    ensures |h| >= n ==> First(h + [x], n) == First(h, n)
  {
  }

  /** The totals of the first `train` events are kept apart. */
  ghost predicate Trained(c: Cache, cap: nat, h: seq<seq<int>>, pinned: nat, train: nat, trained: Totals, held: Totals) {
    && c.Valid(cap) && Runs.ValidHistory(h)
    && trained == Tally(c, cap, First(h, train), pinned)
    && (|h| <= train ==> held == Totals(0, 0, 0))
  }

  lemma TrainedMore(c: Cache, cap: nat, h: seq<seq<int>>, ids: seq<int>, pinned: nat, train: nat, now: Cache,
                    trained: Totals, held: Totals, totals: Totals)
    requires Replayed(c, cap, h, pinned, now, trained.Plus(held)) && Trained(c, cap, h, pinned, train, trained, held)
    requires |h| < train && ValidIds(ids) && totals == EventTotals(now, cap, ids, pinned)
    ensures Trained(c, cap, h + [ids], pinned, train, trained.Plus(totals), held)
  {
    FirstMore(h, ids, train);
    ReplayedMore(c, cap, h, ids, pinned, now, trained);
  }

  lemma HeldMore(c: Cache, cap: nat, h: seq<seq<int>>, ids: seq<int>, pinned: nat, train: nat, trained: Totals,
                 held: Totals, more: Totals)
    requires Trained(c, cap, h, pinned, train, trained, held) && |h| >= train && ValidIds(ids)
    ensures Trained(c, cap, h + [ids], pinned, train, trained, more)
  {
    FirstMore(h, ids, train);
    HeldNext(c, cap, h, h + [ids], pinned, train, trained, held, more);
  }

  lemma HeldNext(c: Cache, cap: nat, h: seq<seq<int>>, longer: seq<seq<int>>, pinned: nat, train: nat, trained: Totals,
                 held: Totals, more: Totals)
    requires Trained(c, cap, h, pinned, train, trained, held) && |longer| > train && Runs.ValidHistory(longer)
    requires First(longer, train) == First(h, train)
    ensures Trained(c, cap, longer, pinned, train, trained, more)
  {
  }

  /** The state of the tool after the events of h. */
  ghost predicate Split(c: Cache, cap: nat, h: seq<seq<int>>, pinned: nat, train: nat, now: Cache, trained: Totals,
                        held: Totals) {
    Replayed(c, cap, h, pinned, now, trained.Plus(held)) && Trained(c, cap, h, pinned, train, trained, held)
  }

  lemma SplitMore(c: Cache, cap: nat, h: seq<seq<int>>, ids: seq<int>, pinned: nat, train: nat, now: Cache,
                  next: Cache, trained: Totals, held: Totals, totals: Totals)
    requires Split(c, cap, h, pinned, train, now, trained, held) && ValidIds(ids)
    requires totals == EventTotals(now, cap, ids, pinned) && next == Step(now, ids, pinned, MAX_INSERTS)
    ensures |h| < train ==> Split(c, cap, h + [ids], pinned, train, next, trained.Plus(totals), held)
    ensures |h| >= train ==> Split(c, cap, h + [ids], pinned, train, next, trained, held.Plus(totals))
  {
    ReplayedMore(c, cap, h, ids, pinned, now, trained.Plus(held));
    PlusMoves(trained, held, totals);
    if |h| < train {
      TrainedMore(c, cap, h, ids, pinned, train, now, trained, held, totals);
    } else {
      HeldMore(c, cap, h, ids, pinned, train, trained, held, held.Plus(totals));
    }
  }

  lemma PlusMoves(a: Totals, b: Totals, t: Totals)
    ensures a.Plus(b).Plus(t) == a.Plus(t).Plus(b) == a.Plus(b.Plus(t))
  {
  }

  /** Where the tool stands after e events. */
  ghost predicate Standing(c: Cache, cap: nat, trace: seq<seq<int>>, e: nat, rank: int, pinned: nat, train: nat,
                           now: Cache, beside: Cache, trained: Totals, held: Totals) {
    && e <= |trace| && AcceptsTrace(trace, rank, cap, c.event)
    && Split(c, cap, trace[..e], pinned, train, now, trained, held)
    && (pinned == PinnedSlots(rank) ==> beside == now)
  }

  lemma StandingAccepts(c: Cache, cap: nat, trace: seq<seq<int>>, e: nat, rank: int, pinned: nat, train: nat,
                        now: Cache, beside: Cache, trained: Totals, held: Totals)
    requires Standing(c, cap, trace, e, rank, pinned, train, now, beside, trained, held) && e < |trace|
    ensures now.Valid(cap) && (pinned == PinnedSlots(rank) ==> beside == now)
    ensures AcceptsEvent(trace[e], rank, cap, MAX_INSERTS, true, now.event) && ValidIds(trace[e])
  {
    RunEvent(c, cap, trace[..e], pinned);
  }

  lemma StandingMore(c: Cache, cap: nat, trace: seq<seq<int>>, e: nat, rank: int, pinned: nat, train: nat,
                     now: Cache, beside: Cache, trained: Totals, held: Totals,
                     totals: Totals, next: Cache, nextBeside: Cache)
    requires Standing(c, cap, trace, e, rank, pinned, train, now, beside, trained, held) && e < |trace|
    requires now.Valid(cap) && ValidIds(trace[e])
    requires totals == EventTotals(now, cap, trace[e], pinned) && next == Step(now, trace[e], pinned, MAX_INSERTS)
    requires pinned == PinnedSlots(rank) ==> nextBeside == next
    ensures e < train ==>
              Standing(c, cap, trace, e + 1, rank, pinned, train, next, nextBeside, trained.Plus(totals), held)
    ensures e >= train ==>
              Standing(c, cap, trace, e + 1, rank, pinned, train, next, nextBeside, trained, held.Plus(totals))
  {
    var h, more := PrefixMore(trace, e);
    StandingNext(c, cap, h, trace[e], pinned, train, now, trained, held, totals, next, more);
    if e < train {
      StandingFrom(c, cap, trace, e + 1, more, rank, pinned, train, next, nextBeside, trained.Plus(totals), held);
    } else {
      StandingFrom(c, cap, trace, e + 1, more, rank, pinned, train, next, nextBeside, trained, held.Plus(totals));
    }
  }

  lemma PrefixMore<T>(s: seq<T>, e: nat) returns (h: seq<T>, more: seq<T>)
    requires e < |s|
    ensures h == s[..e] && more == s[..e + 1] && |h| == e && more == h + [s[e]]
  {
    h, more := s[..e], s[..e + 1];
  }

  lemma StandingFrom(c: Cache, cap: nat, trace: seq<seq<int>>, e: nat, h: seq<seq<int>>, rank: int, pinned: nat,
                     train: nat, now: Cache, beside: Cache, trained: Totals, held: Totals)
    requires e <= |trace| && h == trace[..e] && AcceptsTrace(trace, rank, cap, c.event)
    requires Split(c, cap, h, pinned, train, now, trained, held) && (pinned == PinnedSlots(rank) ==> beside == now)
    ensures Standing(c, cap, trace, e, rank, pinned, train, now, beside, trained, held)
  {
  }

  lemma StandingNext(c: Cache, cap: nat, h: seq<seq<int>>, ids: seq<int>, pinned: nat, train: nat, now: Cache,
                     trained: Totals, held: Totals, totals: Totals, next: Cache, more: seq<seq<int>>)
    requires Split(c, cap, h, pinned, train, now, trained, held) && ValidIds(ids) && more == h + [ids]
    requires totals == EventTotals(now, cap, ids, pinned) && next == Step(now, ids, pinned, MAX_INSERTS)
    ensures |h| < train ==> Split(c, cap, more, pinned, train, next, trained.Plus(totals), held)
    ensures |h| >= train ==> Split(c, cap, more, pinned, train, next, trained, held.Plus(totals))
  {
    SplitMore(c, cap, h, ids, pinned, train, now, next, trained, held, totals);
  }

  /** The replay tool on one layer. The totals are kept apart for the training events and the rest; at the rank's own
      pin count the serving planner runs beside the replay and never differs from it. */
  method Replay(replay: Arena, serving: Arena, trace: seq<seq<int>>, rank: int, pinned: nat, train: nat)
    returns (trained: Totals, held: Totals, mismatch: bool)
    requires Apart(replay, serving) && replay.Contents().Valid(replay.cap)
    requires serving.Contents() == replay.Contents()
    requires AcceptsTrace(trace, rank, replay.cap, replay.event)
    modifies replay.tags, replay.slotOf, replay.clock, replay`event
    modifies serving.tags, serving.slotOf, serving.clock, serving`event
    ensures !mismatch
    ensures pinned == PinnedSlots(rank) ==> serving.Contents() == replay.Contents()
    ensures Split(old(replay.Contents()), replay.cap, trace, pinned, train, replay.Contents(), trained, held)
  {
    ghost var c := replay.Contents();
    trained, held, mismatch := Totals(0, 0, 0), Totals(0, 0, 0), false;
    StandingStart(c, replay.cap, trace, rank, pinned, train, trained);
    var e := 0;
    while e < |trace| && !mismatch
      invariant 0 <= e <= |trace| && !mismatch
      invariant Standing(c, replay.cap, trace, e, rank, pinned, train, replay.Contents(), serving.Contents(), trained, held)
      decreases |trace| - e
    {
      var totals;
      totals, mismatch := ReplayNext(replay, serving, trace, e, rank, pinned, c, train, trained, held);
      if e < train { trained := trained.Plus(totals); } else { held := held.Plus(totals); }
      e := e + 1;
    }
    StandingEnd(c, replay.cap, trace, rank, pinned, train, replay.Contents(), serving.Contents(), trained, held);
  }

  lemma StandingStart(c: Cache, cap: nat, trace: seq<seq<int>>, rank: int, pinned: nat, train: nat, zero: Totals)
    requires c.Valid(cap) && AcceptsTrace(trace, rank, cap, c.event) && zero == Totals(0, 0, 0)
    ensures Standing(c, cap, trace, 0, rank, pinned, train, c, c, zero, zero)
  {
    SplitNothing(c, cap, trace[..0], pinned, train, zero);
  }

  lemma SplitNothing(c: Cache, cap: nat, h: seq<seq<int>>, pinned: nat, train: nat, zero: Totals)
    requires c.Valid(cap) && h == [] && zero == Totals(0, 0, 0)
    ensures Split(c, cap, h, pinned, train, c, zero, zero)
  {
    ReplayedNothing(c, cap, h, pinned, zero.Plus(zero));
    TrainedNothing(c, cap, h, pinned, train, zero);
  }

  lemma ReplayedNothing(c: Cache, cap: nat, h: seq<seq<int>>, pinned: nat, zero: Totals)
    requires c.Valid(cap) && h == [] && zero == Totals(0, 0, 0)
    ensures Replayed(c, cap, h, pinned, c, zero)
  {
  }

  lemma TrainedNothing(c: Cache, cap: nat, h: seq<seq<int>>, pinned: nat, train: nat, zero: Totals)
    requires c.Valid(cap) && h == [] && zero == Totals(0, 0, 0)
    ensures Trained(c, cap, h, pinned, train, zero, zero)
  {
  }

  lemma StandingEnd(c: Cache, cap: nat, trace: seq<seq<int>>, rank: int, pinned: nat, train: nat, now: Cache,
                    beside: Cache, trained: Totals, held: Totals)
    requires Standing(c, cap, trace, |trace|, rank, pinned, train, now, beside, trained, held)
    ensures Split(c, cap, trace, pinned, train, now, trained, held)
    ensures pinned == PinnedSlots(rank) ==> beside == now
  {
    assert trace[..|trace|] == trace;
  }

  method ReplayNext(replay: Arena, serving: Arena, trace: seq<seq<int>>, e: nat, rank: int, pinned: nat,
                    ghost c: Cache, ghost train: nat, ghost trained: Totals, ghost held: Totals)
    returns (totals: Totals, mismatch: bool)
    requires Apart(replay, serving) && e < |trace|
    requires Standing(c, replay.cap, trace, e, rank, pinned, train, replay.Contents(), serving.Contents(), trained, held)
    modifies replay.tags, replay.slotOf, replay.clock, replay`event
    modifies serving.tags, serving.slotOf, serving.clock, serving`event
    ensures e < train ==>
              Standing(c, replay.cap, trace, e + 1, rank, pinned, train, replay.Contents(), serving.Contents(),
                       trained.Plus(totals), held)
    ensures e >= train ==>
              Standing(c, replay.cap, trace, e + 1, rank, pinned, train, replay.Contents(), serving.Contents(),
                       trained, held.Plus(totals))
    ensures !mismatch
  {
    ghost var now, beside := replay.Contents(), serving.Contents();
    StandingAccepts(c, replay.cap, trace, e, rank, pinned, train, now, beside, trained, held);
    totals, mismatch := ReplayEvent(replay, serving, trace[e], rank, pinned);
    StandingMore(c, replay.cap, trace, e, rank, pinned, train, now, beside, trained, held, totals,
                 replay.Contents(), serving.Contents());
  }

  /** A saved routing of one layer, fifty requests an event, that the rank's planner takes from start to end. */
  ghost predicate AcceptsTrace(trace: seq<seq<int>>, rank: int, cap: nat, event: int) {
    && (forall e :: 0 <= e < |trace| ==> |trace[e]| == 50 && ValidIds(trace[e]))
    && (if rank == 0 then cap == RANK0_SLOTS else rank == 1 && cap == RANK1_SLOTS)
    && 0 <= event && event + |trace| <= INT64_MAX
  }
}
