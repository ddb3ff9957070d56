/** What the planner keeps over every replay, and why its evictions are those of a pinned
    least-recently-used cache. */
module PinnedCacheRuns {
  import opened PinnedCache
  import opened Sets

  // ---------------------------------------------------------------- one admission

  lemma PlaceKeepsValid(c: Cache, cap: nat, e: int, t: int)
    requires c.Valid(cap) && 0 <= e < EXPERTS && !c.Resident(e) && 0 <= t < cap
    ensures Place(c, e, t).Valid(cap)
    ensures Place(c, e, t).Resident(e)
    ensures forall x :: x != e && x != c.tags[t] ==> Place(c, e, t).Resident(x) == c.Resident(x)
  {
  }

  lemma PlaceUsesOneSlot(c: Cache, cap: nat, uniq: seq<int>, pinned: nat, e: int, t: int)
    requires c.Valid(cap) && e in uniq && 0 <= e < EXPERTS && t in Available(c, uniq, pinned)
    ensures Available(Place(c, e, t), uniq, pinned) == Available(c, uniq, pinned) - {t}
  {
  }

  /** The slot-by-slot effect of a batch of admissions. */
  ghost predicate OnlyTakes(c: Cache, c': Cache, uniq: seq<int>, pinned: nat) {
    && |c'.tags| == |c.tags|
    && forall s :: 0 <= s < |c.tags| && c'.tags[s] != c.tags[s] ==>
         s in Available(c, uniq, pinned) && c'.tags[s] in uniq
  }

  ghost predicate AllMissing(c: Cache, cands: seq<int>) {
    forall i :: 0 <= i < |cands| ==> !c.Resident(cands[i])
  }

  lemma {:induction false} AdmitKeepsValid(c: Cache, cap: nat, uniq: seq<int>, cands: seq<int>, pinned: nat)
    requires c.Valid(cap) && ValidIds(cands) && NoDup(cands) && AllMissing(c, cands)
    requires forall e :: e in cands ==> e in uniq
    ensures Admit(c, uniq, cands, pinned).cache.Valid(cap)
    ensures OnlyTakes(c, Admit(c, uniq, cands, pinned).cache, uniq, pinned)
    decreases |cands|
  {
    if cands != [] {
      var t := Target(c, uniq, pinned);
      if t >= 0 {
        var c1 := Place(c, cands[0], t);
        PlaceKeepsValid(c, cap, cands[0], t);
        PlaceUsesOneSlot(c, cap, uniq, pinned, cands[0], t);
        AdmitKeepsValid(c1, cap, uniq, cands[1..], pinned);
      }
    }
  }

  /** A batch admits as many candidates as there are slots to take. */
  lemma {:induction false} AdmitCount(c: Cache, cap: nat, uniq: seq<int>, cands: seq<int>, pinned: nat)
    requires c.Valid(cap) && ValidIds(cands) && NoDup(cands) && AllMissing(c, cands)
    requires forall e :: e in cands ==> e in uniq
    ensures Admit(c, uniq, cands, pinned).admitted ==
            if |cands| <= |Available(c, uniq, pinned)| then |cands| else |Available(c, uniq, pinned)|
    decreases |cands|
  {
    if cands != [] {
      var t := Target(c, uniq, pinned);
      if t >= 0 {
        PlaceKeepsValid(c, cap, cands[0], t);
        PlaceUsesOneSlot(c, cap, uniq, pinned, cands[0], t);
        AdmitCount(Place(c, cands[0], t), cap, uniq, cands[1..], pinned);
      }
    }
  }

  lemma InPrefix(s: seq<int>, n: nat, e: int)
    requires n < |s|
    ensures e in s[..n + 1] <==> e == s[0] || e in s[1..][..n]
  {
    assert s[..n + 1] == [s[0]] + s[1..][..n];
  }

  /** Admitting is first come, first served: exactly the leading candidates gain a slot, and no
      requested expert loses one. */
  lemma {:induction false} AdmitWho(
    c: Cache, cap: nat, uniq: seq<int>, cands: seq<int>, pinned: nat, e: int)
    requires c.Valid(cap) && ValidIds(cands) && NoDup(cands) && AllMissing(c, cands)
    requires forall x :: x in cands ==> x in uniq
    ensures var r := Admit(c, uniq, cands, pinned);
            e in uniq ==> (r.cache.Resident(e) <==> c.Resident(e) || e in cands[..r.admitted])
    decreases |cands|
  {
    if cands != [] {
      var t := Target(c, uniq, pinned);
      if t >= 0 {
        var c1 := Place(c, cands[0], t);
        PlaceKeepsValid(c, cap, cands[0], t);
        AdmitWho(c1, cap, uniq, cands[1..], pinned, e);
        InPrefix(cands, Admit(c1, uniq, cands[1..], pinned).admitted, e);
      }
    }
  }

  /** An expert that is not requested gains no slot and never moves. */
  lemma {:induction false} AdmitLeavesOthers(
    c: Cache, cap: nat, uniq: seq<int>, cands: seq<int>, pinned: nat, e: int)
    requires c.Valid(cap) && ValidIds(cands) && NoDup(cands) && AllMissing(c, cands)
    requires forall x :: x in cands ==> x in uniq
    requires e !in uniq && Admit(c, uniq, cands, pinned).cache.Resident(e)
    ensures c.Resident(e) && Admit(c, uniq, cands, pinned).cache.slotOf[e] == c.slotOf[e]
  {
    AdmitKeepsValid(c, cap, uniq, cands, pinned);
  }

  /** The candidates are requested experts without a slot, and the expert is lost to them. */
  ghost predicate Loses(c: Cache, cap: nat, uniq: seq<int>, cands: seq<int>, pinned: nat, lost: int) {
    && c.Valid(cap) && ValidIds(uniq) && ValidIds(cands) && NoDup(cands) && AllMissing(c, cands)
    && (forall e :: e in cands ==> e in uniq)
    && c.Resident(lost) && !Admit(c, uniq, cands, pinned).cache.Resident(lost)
  }

  /** The first admission takes the lost expert's slot, or leaves the loss to the rest. */
  lemma FirstAdmission(c: Cache, cap: nat, uniq: seq<int>, cands: seq<int>, pinned: nat, lost: int)
    requires Loses(c, cap, uniq, cands, pinned, lost)
    ensures cands != []
    ensures var t := Target(c, uniq, pinned);
            && t >= 0
            && Place(c, cands[0], t).Valid(cap)
            && (c.tags[t] != lost ==> Loses(Place(c, cands[0], t), cap, uniq, cands[1..], pinned, lost)
                                      && Place(c, cands[0], t).slotOf[lost] == c.slotOf[lost])
            && OnlyTakes(Place(c, cands[0], t), Admit(c, uniq, cands, pinned).cache, uniq, pinned)
  {
    var t := Target(c, uniq, pinned);
    var c1 := Place(c, cands[0], t);
    PlaceKeepsValid(c, cap, cands[0], t);
    AdmitKeepsValid(c1, cap, uniq, cands[1..], pinned);
  }

  /** An expert loses its slot only when no slot is left empty, and only from an evictable slot. */
  lemma {:induction false} AdmitEvictsWhenFull(c: Cache, cap: nat, uniq: seq<int>, cands: seq<int>, pinned: nat, lost: int)
    requires Loses(c, cap, uniq, cands, pinned, lost)
    ensures forall s :: 0 <= s < cap ==> Admit(c, uniq, cands, pinned).cache.tags[s] >= 0
    ensures Evictable(c, uniq, pinned, c.slotOf[lost])
    decreases |cands|
  {
    var t := Target(c, uniq, pinned);
    FirstAdmission(c, cap, uniq, cands, pinned, lost);
    if c.tags[t] != lost {
      AdmitEvictsWhenFull(Place(c, cands[0], t), cap, uniq, cands[1..], pinned, lost);
    }
  }

  /** An expert loses its slot only to a smallest clock: every evictable slot that keeps its expert has a clock at
      least as large. */
  lemma {:induction false} AdmitEvictsLeastClock(
    c: Cache, cap: nat, uniq: seq<int>, cands: seq<int>, pinned: nat, lost: int, kept: int)
    requires Loses(c, cap, uniq, cands, pinned, lost) && 0 <= kept < cap
    requires Evictable(c, uniq, pinned, kept) && Admit(c, uniq, cands, pinned).cache.tags[kept] == c.tags[kept]
    ensures c.clock[c.slotOf[lost]] <= c.clock[kept]
    decreases |cands|
  {
    var t := Target(c, uniq, pinned);
    FirstAdmission(c, cap, uniq, cands, pinned, lost);
    if c.tags[t] != lost {
      AdmitEvictsLeastClock(Place(c, cands[0], t), cap, uniq, cands[1..], pinned, lost, kept);
    }
  }

  // ---------------------------------------------------------------- one event

  ghost predicate Requests(uniq: seq<int>) {
    ValidIds(uniq) && NoDup(uniq)
  }

  /** The candidates of an event are requested experts without a slot. */
  lemma CandidatesMissing(c: Cache, cap: nat, uniq: seq<int>, maxInserts: nat)
    requires c.Valid(cap) && Requests(uniq)
    ensures var cands := Candidates(c, uniq, maxInserts);
            && ValidIds(cands) && NoDup(cands) && AllMissing(c, cands)
            && forall e :: e in cands ==> e in uniq
  {
    var m, cands := Misses(c, uniq), Candidates(c, uniq, maxInserts);
    forall i | 0 <= i < |cands|
      ensures 0 <= cands[i] < EXPERTS && !c.Resident(cands[i]) && cands[i] in uniq
    {
      assert cands[i] == m[i];
      assert m[i] in m;
    }
  }

  lemma TouchKeepsValid(c: Cache, cap: nat, uniq: seq<int>)
    requires c.Valid(cap)
    ensures Touch(c, uniq).Valid(cap)
  {
  }

  lemma StepKeepsValid(c: Cache, cap: nat, ids: seq<int>, pinned: nat, maxInserts: nat)
    requires c.Valid(cap) && ValidIds(ids)
    ensures Step(c, ids, pinned, maxInserts).Valid(cap)
    ensures OnlyTakes(c, Step(c, ids, pinned, maxInserts), Distinct(ids), pinned)
  {
    var uniq := Distinct(ids);
    CandidatesMissing(c, cap, uniq, maxInserts);
    AdmitKeepsValid(c, cap, uniq, Candidates(c, uniq, maxInserts), pinned);
    TouchKeepsValid(AdmitEvent(c, uniq, pinned, maxInserts).cache, cap, uniq);
  }

  ghost function FreeSlots(c: Cache): set<int> {
    set s | 0 <= s < |c.tags| && c.tags[s] < 0
  }

  ghost function EvictableSlots(c: Cache, uniq: seq<int>, pinned: nat): set<int> {
    set s | 0 <= s < |c.tags| && Evictable(c, uniq, pinned, s)
  }

  function Min(a: nat, b: nat): nat { if a <= b then a else b }

  /** How many experts one event admits: none when the distinct requests exceed half the capacity,
      otherwise the misses, cut by the insertion limit and by the empty and evictable slots. */
  lemma AdmissionCount(c: Cache, cap: nat, uniq: seq<int>, pinned: nat, maxInserts: nat)
    requires c.Valid(cap) && Requests(uniq)
    ensures AdmitEvent(c, uniq, pinned, maxInserts).admitted ==
            if |uniq| > cap / 2 then 0
            else Min(|Misses(c, uniq)|,
                     Min(maxInserts, |FreeSlots(c)| + |EvictableSlots(c, uniq, pinned)|))
  {
    var cands := Candidates(c, uniq, maxInserts);
    CandidatesMissing(c, cap, uniq, maxInserts);
    AdmitCount(c, cap, uniq, cands, pinned);
    AvailableSize(c, uniq, pinned);
    CandidateCount(c, uniq, maxInserts);
  }

  lemma CandidateCount(c: Cache, uniq: seq<int>, maxInserts: nat)
    requires |c.slotOf| == EXPERTS && ValidIds(uniq) && NoDup(uniq)
    ensures |Candidates(c, uniq, maxInserts)| ==
            if |uniq| > |c.tags| / 2 then 0 else Min(|Misses(c, uniq)|, maxInserts)
  {
  }

  lemma AvailableSize(c: Cache, uniq: seq<int>, pinned: nat)
    ensures |Available(c, uniq, pinned)| == |FreeSlots(c)| + |EvictableSlots(c, uniq, pinned)|
  {
    assert Available(c, uniq, pinned) == FreeSlots(c) + EvictableSlots(c, uniq, pinned);
    assert FreeSlots(c) !! EvictableSlots(c, uniq, pinned);
  }

  /** The misses that were not admitted are exactly the requested experts left without a slot, so
      the requested experts resident afterwards number the distinct requests less `uncached`. */
  lemma RequestedResidents(c: Cache, cap: nat, uniq: seq<int>, pinned: nat, maxInserts: nat)
    requires c.Valid(cap) && Requests(uniq)
    ensures var r, m := AdmitEvent(c, uniq, pinned, maxInserts), Misses(c, uniq);
            && r.admitted <= |m|
            && (forall e :: e in uniq && !r.cache.Resident(e) <==> e in m[r.admitted..])
            && |set e | e in uniq && r.cache.Resident(e)| == |uniq| - (|m| - r.admitted)
  {
    var r, m := AdmitEvent(c, uniq, pinned, maxInserts), Misses(c, uniq);
    var cands, late := Candidates(c, uniq, maxInserts), m[r.admitted..];
    CandidatesMissing(c, cap, uniq, maxInserts);
    forall e ensures e in uniq && !r.cache.Resident(e) <==> e in late {
      AdmitWho(c, cap, uniq, cands, pinned, e);
      TailMembers(m, cands, r.admitted, e);
    }
    NoDupSize(uniq);
    NoDupSize(late);
    assert (set e | e in uniq && r.cache.Resident(e)) == ToSet(uniq) - ToSet(late);
    assert ToSet(late) <= ToSet(uniq);
  }

  lemma TailMembers(m: seq<int>, cands: seq<int>, k: nat, e: int)
    requires NoDup(m) && cands <= m && k <= |cands|
    ensures e in m[k..] <==> e in m && e !in cands[..k]
  {
    assert m == cands[..k] + m[k..];
  }

  /** A pinned least-recently-used cache, seen from outside: which experts are resident before and
      after an event that requests `req`. The choice among equally old experts is left open. */
  ghost predicate LruStep(
    before: set<int>, after: set<int>, req: set<int>, pinnedExperts: set<int>, cap: nat,
    admitted: set<int>, last: map<int, int>)
  {
    && after - before == admitted <= req
    && |after| == Min(cap, |before| + |admitted|)
    && (before - after != {} ==> |after| == cap)
    && OldestLeave(before, after, req + pinnedExperts, last)
  }

  /** No expert of `safe` leaves, and whatever leaves is no younger than any other expert that stays. */
  ghost predicate OldestLeave(before: set<int>, after: set<int>, safe: set<int>, last: map<int, int>) {
    && before - after !! safe
    && forall lost, kept :: lost in before - after && kept in before * after - safe ==>
         lost in last && kept in last && last[lost] <= last[kept]
  }

  ghost function PinnedExperts(c: Cache, pinned: nat): set<int> {
    set e | 0 <= e < |c.slotOf| && 0 <= c.slotOf[e] < pinned
  }

  ghost function Recency(c: Cache): map<int, int>
    requires |c.tags| == |c.clock| && forall e :: e in c.Residents() ==> c.slotOf[e] < |c.clock|
  {
    map e | e in c.Residents() :: c.clock[c.slotOf[e]]
  }

  ghost function Occupied(c: Cache): set<int> {
    set s | 0 <= s < |c.tags| && c.tags[s] >= 0
  }

  /** Residents and occupied slots are the two sides of one bijection. */
  lemma ResidentsSize(c: Cache, cap: nat)
    requires c.Valid(cap)
    ensures |c.Residents()| == |Occupied(c)| <= cap
    ensures |Occupied(c)| == cap <==> FreeSlots(c) == {}
  {
    OccupiedSize(c, cap);
    PlacesMatch(c, cap);
    InjectiveSize(Places(c, cap));
  }

  /** Where each resident is. */
  ghost function Places(c: Cache, cap: nat): map<int, int>
    requires c.Valid(cap)
  {
    map e | e in c.Residents() :: c.slotOf[e]
  }

  lemma PlacesMatch(c: Cache, cap: nat)
    requires c.Valid(cap)
    ensures Places(c, cap).Keys == c.Residents() && Places(c, cap).Values == Occupied(c)
    ensures forall x, y :: x in Places(c, cap) && y in Places(c, cap) && x != y ==> Places(c, cap)[x] != Places(c, cap)[y]
  {
    forall s | s in Occupied(c) ensures s in Places(c, cap).Values { assert c.tags[s] in Places(c, cap); }
  }

  lemma OccupiedSize(c: Cache, cap: nat)
    requires |c.tags| == cap
    ensures |Occupied(c)| <= cap
    ensures |Occupied(c)| == cap <==> FreeSlots(c) == {}
  {
    assert FreeSlots(c) == Below(cap) - Occupied(c);
    SubsetSize(Occupied(c), Below(cap));
  }

  /** Occupied slots stay occupied, so |residents| never falls; the new residents fill what room there is. */
  lemma StepGrows(c: Cache, cap: nat, ids: seq<int>, pinned: nat, maxInserts: nat)
    requires c.Valid(cap) && ValidIds(ids)
    ensures Occupied(c) <= Occupied(Step(c, ids, pinned, maxInserts))
    ensures |c.Residents()| <= |Step(c, ids, pinned, maxInserts).Residents()| <= cap
  {
    var c' := Step(c, ids, pinned, maxInserts);
    StepKeepsValid(c, cap, ids, pinned, maxInserts);
    assert forall s :: 0 <= s < cap && c.tags[s] >= 0 ==> c'.tags[s] >= 0;
    ResidentsSize(c, cap);
    ResidentsSize(c', cap);
    SubsetSize(Occupied(c), Occupied(c'));
  }

  lemma EvictionFacts(c: Cache, cap: nat, uniq: seq<int>, pinned: nat, maxInserts: nat, lost: int)
    requires c.Valid(cap) && Requests(uniq)
    requires c.Resident(lost) && !AdmitEvent(c, uniq, pinned, maxInserts).cache.Resident(lost)
    ensures lost !in uniq && c.slotOf[lost] >= pinned
    ensures FreeSlots(AdmitEvent(c, uniq, pinned, maxInserts).cache) == {}
    ensures forall kept :: c.Resident(kept) && AdmitEvent(c, uniq, pinned, maxInserts).cache.Resident(kept) &&
                           kept !in uniq && c.slotOf[kept] >= pinned ==>
              c.clock[c.slotOf[lost]] <= c.clock[c.slotOf[kept]]
  {
    var cands := Candidates(c, uniq, maxInserts);
    CandidatesMissing(c, cap, uniq, maxInserts);
    AdmitKeepsValid(c, cap, uniq, cands, pinned);
    AdmitEvictsWhenFull(c, cap, uniq, cands, pinned, lost);
    forall kept | c.Resident(kept) && AdmitEvent(c, uniq, pinned, maxInserts).cache.Resident(kept) &&
                  kept !in uniq && c.slotOf[kept] >= pinned
      ensures c.clock[c.slotOf[lost]] <= c.clock[c.slotOf[kept]]
    {
      AdmitLeavesOthers(c, cap, uniq, cands, pinned, kept);
      AdmitEvictsLeastClock(c, cap, uniq, cands, pinned, lost, c.slotOf[kept]);
    }
  }

  /** The new residents are exactly the leading misses. */
  lemma NewResidents(c: Cache, cap: nat, uniq: seq<int>, pinned: nat, maxInserts: nat)
    requires c.Valid(cap) && Requests(uniq)
    ensures var r := AdmitEvent(c, uniq, pinned, maxInserts);
            && r.admitted <= |Misses(c, uniq)|
            && r.cache.Residents() - c.Residents() == ToSet(Misses(c, uniq)[..r.admitted])
  {
    var r, m := AdmitEvent(c, uniq, pinned, maxInserts), Misses(c, uniq);
    var cands := Candidates(c, uniq, maxInserts);
    CandidatesMissing(c, cap, uniq, maxInserts);
    AdmitKeepsValid(c, cap, uniq, cands, pinned);
    var head := m[..r.admitted];
    assert head == cands[..r.admitted];
    forall e ensures e in r.cache.Residents() - c.Residents() <==> e in head {
      AdmitWho(c, cap, uniq, cands, pinned, e);
      if e in r.cache.Residents() && e !in uniq {
        AdmitLeavesOthers(c, cap, uniq, cands, pinned, e);
      }
      if e in head { assert e in m; }
    }
  }

  /** An event is a step of the pinned least-recently-used cache with the given ages; what enters are the leading
      misses. */
  ghost predicate IsLruStep(c: Cache, cap: nat, ids: seq<int>, pinned: nat, maxInserts: nat, ages: map<int, int>)
    requires c.Valid(cap) && ValidIds(ids)
  {
    var m, k := Misses(c, Distinct(ids)), AdmitEvent(c, Distinct(ids), pinned, maxInserts).admitted;
    && k <= |m|
    && LruStep(c.Residents(), Step(c, ids, pinned, maxInserts).Residents(), ToSet(ids), PinnedExperts(c, pinned), cap,
               ToSet(m[..k]), ages)
  }

  /** Every event is a step of a pinned least-recently-used cache whose ages are the clocks. */
  lemma StepIsLru(c: Cache, cap: nat, ids: seq<int>, pinned: nat, maxInserts: nat)
    requires c.Valid(cap) && ValidIds(ids)
    ensures IsLruStep(c, cap, ids, pinned, maxInserts, Recency(c))
  {
    var uniq, c' := Distinct(ids), Step(c, ids, pinned, maxInserts);
    NewResidents(c, cap, uniq, pinned, maxInserts);
    assert c'.Residents() == AdmitEvent(c, uniq, pinned, maxInserts).cache.Residents();
    MissesRequested(c, ids, AdmitEvent(c, uniq, pinned, maxInserts).admitted);
    EvictsOldest(c, cap, uniq, pinned, maxInserts);
    assert ToSet(uniq) == ToSet(ids);
    ResidentCount(c, cap, ids, pinned, maxInserts);
  }

  lemma MissesRequested(c: Cache, ids: seq<int>, k: nat)
    requires |c.slotOf| == EXPERTS && ValidIds(ids) && k <= |Misses(c, Distinct(ids))|
    ensures ToSet(Misses(c, Distinct(ids))[..k]) <= ToSet(ids)
  {
    var m := Misses(c, Distinct(ids));
    forall e | e in m[..k] ensures e in ids { assert e in m; }
  }

  lemma EvictsOldest(c: Cache, cap: nat, uniq: seq<int>, pinned: nat, maxInserts: nat)
    requires c.Valid(cap) && Requests(uniq)
    ensures OldestLeave(c.Residents(), AdmitEvent(c, uniq, pinned, maxInserts).cache.Residents(),
                        ToSet(uniq) + PinnedExperts(c, pinned), Recency(c))
  {
    var before, after := c.Residents(), AdmitEvent(c, uniq, pinned, maxInserts).cache.Residents();
    var safe := ToSet(uniq) + PinnedExperts(c, pinned);
    forall lost | lost in before - after
      ensures lost !in safe
      ensures forall kept :: kept in before * after - safe ==> Recency(c)[lost] <= Recency(c)[kept]
    {
      EvictionFacts(c, cap, uniq, pinned, maxInserts, lost);
    }
  }

  /** The cache is filled before anything leaves it. */
  lemma ResidentCount(c: Cache, cap: nat, ids: seq<int>, pinned: nat, maxInserts: nat)
    requires c.Valid(cap) && ValidIds(ids)
    ensures var c' := Step(c, ids, pinned, maxInserts);
            && |c'.Residents()| == Min(cap, |c.Residents()| + |c'.Residents() - c.Residents()|)
            && (c.Residents() - c'.Residents() != {} ==> |c'.Residents()| == cap)
  {
    var a, b := c.Residents(), Step(c, ids, pinned, maxInserts).Residents();
    StepKeepsValid(c, cap, ids, pinned, maxInserts);
    ResidentsSize(Step(c, ids, pinned, maxInserts), cap);
    if a - b != {} {
      var lost := Member(a - b);
      LossMeansFull(c, cap, ids, pinned, maxInserts, lost);
    }
    GrowthSize(a, b, cap);
  }

  /** An expert leaves only a cache that is full afterwards. */
  lemma LossMeansFull(c: Cache, cap: nat, ids: seq<int>, pinned: nat, maxInserts: nat, lost: int)
    requires c.Valid(cap) && ValidIds(ids)
    requires lost in c.Residents() - Step(c, ids, pinned, maxInserts).Residents()
    ensures |Step(c, ids, pinned, maxInserts).Residents()| == cap
  {
    var uniq, c' := Distinct(ids), Step(c, ids, pinned, maxInserts);
    StepKeepsValid(c, cap, ids, pinned, maxInserts);
    ResidentsSize(c', cap);
    EvictionFacts(c, cap, uniq, pinned, maxInserts, lost);
    assert FreeSlots(c') == FreeSlots(AdmitEvent(c, uniq, pinned, maxInserts).cache);
  }

  // ---------------------------------------------------------------- whole replays

  ghost predicate ValidHistory(h: seq<seq<int>>) {
    forall i :: 0 <= i < |h| ==> ValidIds(h[i])
  }

  /** The cache after the events of h, from c. */
  ghost function Run(c: Cache, cap: nat, h: seq<seq<int>>, pinned: nat, maxInserts: nat): (r: Cache)
    requires c.Valid(cap) && ValidHistory(h)
    ensures r.Valid(cap)
  {
    if h == [] then c
    else
      var before := Run(c, cap, h[..|h| - 1], pinned, maxInserts);
      StepKeepsValid(before, cap, h[|h| - 1], pinned, maxInserts);
      Step(before, h[|h| - 1], pinned, maxInserts)
  }

  /** The number of the last event of h that requested e; 0 if none did. */
  ghost function LastUse(h: seq<seq<int>>, e: int): (n: nat)
    ensures n <= |h|
    ensures n > 0 ==> e in h[n - 1]
    ensures forall i :: n <= i < |h| ==> e !in h[i]
  {
    if h == [] then 0 else if e in h[|h| - 1] then |h| else LastUse(h[..|h| - 1], e)
  }

  /** A filled pinned slot keeps its expert through every replay, and no slot is ever emptied. */
  lemma {:induction false} PinnedForever(c: Cache, cap: nat, h: seq<seq<int>>, pinned: nat, maxInserts: nat, s: int)
    requires c.Valid(cap) && ValidHistory(h) && 0 <= s < cap && c.tags[s] >= 0
    ensures Run(c, cap, h, pinned, maxInserts).tags[s] >= 0
    ensures s < pinned ==> Run(c, cap, h, pinned, maxInserts).tags[s] == c.tags[s]
  {
    if h != [] {
      PinnedForever(c, cap, h[..|h| - 1], pinned, maxInserts, s);
      StepKeepsValid(Run(c, cap, h[..|h| - 1], pinned, maxInserts), cap, h[|h| - 1], pinned, maxInserts);
    }
  }

  /** From a fresh cache, the clock of every resident expert is the last event that requested it. */
  lemma {:induction false} ClockIsLastUse(
    c: Cache, cap: nat, h: seq<seq<int>>, pinned: nat, maxInserts: nat)
    requires c.Valid(cap) && c.event == 0 && ValidHistory(h)
    ensures var r := Run(c, cap, h, pinned, maxInserts);
            r.event == |h| && forall e :: r.Resident(e) ==> r.clock[r.slotOf[e]] == LastUse(h, e)
  {
    if h != [] {
      var before, ids := Run(c, cap, h[..|h| - 1], pinned, maxInserts), h[|h| - 1];
      ClockIsLastUse(c, cap, h[..|h| - 1], pinned, maxInserts);
      StepKeepsValid(before, cap, ids, pinned, maxInserts);
      var r := Step(before, ids, pinned, maxInserts);
      forall e | r.Resident(e) && e !in ids ensures before.Resident(e) && before.slotOf[e] == r.slotOf[e] {
        CandidatesMissing(before, cap, Distinct(ids), maxInserts);
        AdmitLeavesOthers(before, cap, Distinct(ids), Candidates(before, Distinct(ids), maxInserts), pinned, e);
      }
    }
  }

  /** The last use of every resident expert, read off the request history. */
  ghost function HistoryAges(residents: set<int>, h: seq<seq<int>>): map<int, int> {
    map e | e in residents :: LastUse(h, e)
  }

  lemma ClocksAreAges(c: Cache, cap: nat, h: seq<seq<int>>, pinned: nat, maxInserts: nat)
    requires c.Valid(cap) && c.event == 0 && ValidHistory(h)
    ensures var before := Run(c, cap, h, pinned, maxInserts);
            Recency(before) == HistoryAges(before.Residents(), h)
  {
    ClockIsLastUse(c, cap, h, pinned, maxInserts);
  }

  /** Refinement, over every replay from a fresh cache: each event is a step of the pinned
      least-recently-used cache whose ages are read off the request history alone. */
  lemma ReplayIsLru(c: Cache, cap: nat, h: seq<seq<int>>, ids: seq<int>, pinned: nat, maxInserts: nat)
    requires c.Valid(cap) && c.event == 0 && ValidHistory(h) && ValidIds(ids)
    ensures var before := Run(c, cap, h, pinned, maxInserts);
            IsLruStep(before, cap, ids, pinned, maxInserts, HistoryAges(before.Residents(), h))
  {
    ClocksAreAges(c, cap, h, pinned, maxInserts);
    StepIsLru(Run(c, cap, h, pinned, maxInserts), cap, ids, pinned, maxInserts);
  }
}
