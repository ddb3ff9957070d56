/** In which order an event admits, and into which slots, in terms of the requests as they come. */
module PinnedCacheOrder {
  import opened Sets
  import opened PinnedCache
  import opened PinnedCacheRuns

  // ---------------------------------------------------------------- first touch

  lemma {:induction false} DistinctPrefix(ids: seq<int>, n: nat)
    requires n <= |ids|
    ensures Distinct(ids[..n]) <= Distinct(ids)
    decreases |ids|
  {
    if n == |ids| {
      assert ids[..n] == ids;
    } else {
      var p := ids[..|ids| - 1];
      assert p[..n] == ids[..n];
      DistinctPrefix(p, n);
    }
  }

  lemma {:induction false} MissesPrefix(c: Cache, u: seq<int>, v: seq<int>)
    requires |c.slotOf| == EXPERTS && ValidIds(v) && NoDup(v) && u <= v
    ensures ValidIds(u) && NoDup(u) && Misses(c, u) <= Misses(c, v)
    decreases |v|
  {
    if |u| == |v| {
      assert u == v;
    } else {
      var p := v[..|v| - 1];
      assert u <= p;
      MissesPrefix(c, u, p);
    }
  }

  /** The experts without a slot among the first n requests. */
  function Early(c: Cache, ids: seq<int>, n: nat): (m: seq<int>)
    requires |c.slotOf| == EXPERTS && ValidIds(ids) && n <= |ids|
    ensures forall e :: e in m <==> e in ids[..n] && !c.Resident(e)
  {
    Misses(c, Distinct(ids[..n]))
  }

  lemma EarlyComesFirst(c: Cache, ids: seq<int>, n: nat)
    requires |c.slotOf| == EXPERTS && ValidIds(ids) && n <= |ids|
    ensures Early(c, ids, n) <= Misses(c, Distinct(ids))
  {
    DistinctPrefix(ids, n);
    MissesPrefix(c, Distinct(ids[..n]), Distinct(ids));
  }

  /** Of a list without repeats, what is in a leading part comes before what is not. */
  lemma LeadingFirst(m: seq<int>, lead: seq<int>, k: nat, e: int, f: int)
    requires NoDup(m) && lead <= m && k <= |m| && e in lead && f !in lead && f in m[..k]
    ensures e in m[..k]
  {
    var j :| 0 <= j < k && m[..k][j] == f;
    assert forall x :: 0 <= x < |lead| ==> lead[x] == m[x];
    var i :| 0 <= i < |lead| && lead[i] == e;
    assert m[..k][i] == e;
  }

  /** A requested expert without a slot enters exactly when it is among the leading misses. */
  lemma EntersIff(c: Cache, cap: nat, ids: seq<int>, pinned: nat, maxInserts: nat, e: int)
    requires c.Valid(cap) && ValidIds(ids) && e in ids && !c.Resident(e)
    ensures var m, k := Misses(c, Distinct(ids)), AdmitEvent(c, Distinct(ids), pinned, maxInserts).admitted;
            k <= |m| && (Step(c, ids, pinned, maxInserts).Resident(e) <==> e in m[..k])
  {
    AdmittedIff(c, cap, Distinct(ids), pinned, maxInserts, e);
    SameResidents(c, cap, ids, pinned, maxInserts, e);
  }

  lemma AdmittedIff(c: Cache, cap: nat, uniq: seq<int>, pinned: nat, maxInserts: nat, e: int)
    requires c.Valid(cap) && Requests(uniq) && !c.Resident(e)
    ensures var m, r := Misses(c, uniq), AdmitEvent(c, uniq, pinned, maxInserts);
            r.admitted <= |m| && (r.cache.Resident(e) <==> e in m[..r.admitted])
  {
    var m, r := Misses(c, uniq), AdmitEvent(c, uniq, pinned, maxInserts);
    NewResidents(c, cap, uniq, pinned, maxInserts);
    InDifference(r.cache.Residents(), c.Residents(), m[..r.admitted], e);
  }

  lemma InDifference(after: set<int>, before: set<int>, s: seq<int>, e: int)
    requires after - before == ToSet(s) && e !in before
    ensures e in after <==> e in s
  {
    assert e in ToSet(s) <==> e in s;
  }

  lemma SameResidents(c: Cache, cap: nat, ids: seq<int>, pinned: nat, maxInserts: nat, e: int)
    requires c.Valid(cap) && ValidIds(ids)
    ensures Step(c, ids, pinned, maxInserts).Resident(e)
            <==> AdmitEvent(c, Distinct(ids), pinned, maxInserts).cache.Resident(e)
  {
  }

  /** Who enters: an expert without a slot that is first requested earlier enters before one that is first requested
      later. */
  lemma EarlierFirst(c: Cache, cap: nat, ids: seq<int>, pinned: nat, maxInserts: nat, i: nat, j: nat)
    requires c.Valid(cap) && ValidIds(ids) && i < |ids| && j < |ids|
    requires ids[j] !in ids[..i + 1] && !c.Resident(ids[i]) && !c.Resident(ids[j])
    requires Step(c, ids, pinned, maxInserts).Resident(ids[j])
    ensures Step(c, ids, pinned, maxInserts).Resident(ids[i])
  {
    EntersIff(c, cap, ids, pinned, maxInserts, ids[i]);
    EntersIff(c, cap, ids, pinned, maxInserts, ids[j]);
    EarlyComesFirst(c, ids, i + 1);
    assert ids[..i + 1][i] == ids[i];
    LeadingFirst(Misses(c, Distinct(ids)), Early(c, ids, i + 1),
                 AdmitEvent(c, Distinct(ids), pinned, maxInserts).admitted, ids[i], ids[j]);
  }

  // ---------------------------------------------------------------- which slots are taken

  /** The order in which slots are taken: empty ones from the lowest up, then those longest unused, the lowest of
      equally old ones first. */
  predicate Sooner(c: Cache, s: int, t: int)
    requires |c.tags| == |c.clock| && 0 <= s < |c.tags| && 0 <= t < |c.tags|
  {
    if c.tags[s] < 0 then c.tags[t] >= 0 || s < t
    else c.tags[t] >= 0 && (c.clock[s] < c.clock[t] || (c.clock[s] == c.clock[t] && s < t))
  }

  lemma TargetIsSoonest(c: Cache, uniq: seq<int>, pinned: nat, s: int)
    requires |c.tags| == |c.clock| && s in Available(c, uniq, pinned)
    ensures var t := Target(c, uniq, pinned); t >= 0 && (s == t || Sooner(c, t, s))
  {
  }

  /** What the admissions of a batch rely on. */
  ghost predicate Batch(c: Cache, cap: nat, uniq: seq<int>, cands: seq<int>) {
    && c.Valid(cap) && ValidIds(cands) && NoDup(cands) && AllMissing(c, cands)
    && forall x :: x in cands ==> x in uniq
  }

  /** Candidate k took the soonest slot that the candidates before it had left. */
  ghost predicate TookSoonest(c: Cache, after: Cache, uniq: seq<int>, cands: seq<int>, pinned: nat, k: nat)
    requires k < |cands| && |c.tags| == |c.clock| == |after.tags| && |after.slotOf| == EXPERTS && ValidIds(cands)
  {
    var t := after.slotOf[cands[k]];
    && t in Available(c, uniq, pinned)
    && forall s :: s in Available(c, uniq, pinned) && after.tags[s] !in cands[..k + 1] ==> Sooner(c, t, s)
  }

  lemma FirstTakes(c: Cache, cap: nat, uniq: seq<int>, cands: seq<int>, pinned: nat)
    requires Batch(c, cap, uniq, cands) && cands != [] && Target(c, uniq, pinned) >= 0
    ensures var t, after := Target(c, uniq, pinned), Admit(c, uniq, cands, pinned).cache;
            && Batch(Place(c, cands[0], t), cap, uniq, cands[1..]) && after.Valid(cap)
            && after == Admit(Place(c, cands[0], t), uniq, cands[1..], pinned).cache
            && Admit(c, uniq, cands, pinned).admitted == Admit(Place(c, cands[0], t), uniq, cands[1..], pinned).admitted + 1
            && after.tags[t] == cands[0] && after.slotOf[cands[0]] == t
            && Available(Place(c, cands[0], t), uniq, pinned) == Available(c, uniq, pinned) - {t}
  {
    var t := Target(c, uniq, pinned);
    var c1 := Place(c, cands[0], t);
    PlaceKeepsValid(c, cap, cands[0], t);
    PlaceUsesOneSlot(c, cap, uniq, pinned, cands[0], t);
    AdmitKeepsValid(c1, cap, uniq, cands[1..], pinned);
  }

  lemma {:induction false} AdmitInOrder(c: Cache, cap: nat, uniq: seq<int>, cands: seq<int>, pinned: nat, k: nat)
    requires Batch(c, cap, uniq, cands) && k < Admit(c, uniq, cands, pinned).admitted
    ensures TookSoonest(c, Admit(c, uniq, cands, pinned).cache, uniq, cands, pinned, k)
    decreases |cands|
  {
    FirstTakes(c, cap, uniq, cands, pinned);
    if k == 0 {
      FirstIsSoonest(c, Admit(c, uniq, cands, pinned).cache, uniq, cands, pinned);
    } else {
      var t := Target(c, uniq, pinned);
      AdmitInOrder(Place(c, cands[0], t), cap, uniq, cands[1..], pinned, k - 1);
      LaterIsSoonest(c, Place(c, cands[0], t), Admit(c, uniq, cands, pinned).cache, uniq, cands, pinned, t, k);
    }
  }

  lemma FirstIsSoonest(c: Cache, after: Cache, uniq: seq<int>, cands: seq<int>, pinned: nat)
    requires |c.tags| == |c.clock| == |after.tags| && |after.slotOf| == EXPERTS && ValidIds(cands) && cands != []
    requires Target(c, uniq, pinned) >= 0
    requires after.slotOf[cands[0]] == Target(c, uniq, pinned) && after.tags[Target(c, uniq, pinned)] == cands[0]
    ensures TookSoonest(c, after, uniq, cands, pinned, 0)
  {
    assert cands[..1][0] == cands[0];
    forall s | s in Available(c, uniq, pinned) && after.tags[s] !in cands[..1]
      ensures Sooner(c, Target(c, uniq, pinned), s)
    {
      TargetIsSoonest(c, uniq, pinned, s);
    }
  }

  /** Once a slot is filled, the others keep their order. */
  lemma LaterIsSoonest(c: Cache, c1: Cache, after: Cache, uniq: seq<int>, cands: seq<int>, pinned: nat, t: int, k: nat)
    requires 0 < k < |cands| && ValidIds(cands) && |after.slotOf| == EXPERTS
    requires |c.tags| == |c.clock| == |after.tags| && 0 <= t < |c.tags|
    requires c1.tags == c.tags[t := cands[0]] && c1.clock == c.clock && after.tags[t] == cands[0]
    requires Available(c1, uniq, pinned) == Available(c, uniq, pinned) - {t}
    requires TookSoonest(c1, after, uniq, cands[1..], pinned, k - 1)
    ensures TookSoonest(c, after, uniq, cands, pinned, k)
  {
    var slot := after.slotOf[cands[k]];
    assert cands[1..][k - 1] == cands[k] && cands[..k + 1] == [cands[0]] + cands[1..][..k];
    forall s | s in Available(c, uniq, pinned) && after.tags[s] !in cands[..k + 1] ensures Sooner(c, slot, s) {
      assert s != t;
      assert Sooner(c1, slot, s);
    }
  }

  // ---------------------------------------------------------------- the whole event

  /** A slot that an event with these requests may fill: an empty one, or an unpinned one whose expert it does not
      request. */
  predicate Open(c: Cache, ids: seq<int>, pinned: nat, s: int) {
    0 <= s < |c.tags| && (c.tags[s] < 0 || (pinned <= s && c.tags[s] !in ids))
  }

  /** Where it goes: an entering expert takes an open slot sooner than every open slot that goes to an expert first
      requested later, or to none. */
  lemma EntersSoonest(c: Cache, cap: nat, ids: seq<int>, pinned: nat, maxInserts: nat, i: nat, s: int)
    requires c.Valid(cap) && ValidIds(ids) && i < |ids|
    requires !c.Resident(ids[i]) && Step(c, ids, pinned, maxInserts).Resident(ids[i])
    requires Open(c, ids, pinned, s) && Step(c, ids, pinned, maxInserts).tags[s] !in ids[..i + 1]
    ensures var t := Step(c, ids, pinned, maxInserts).slotOf[ids[i]];
            Open(c, ids, pinned, t) && Sooner(c, t, s)
  {
    var uniq := Distinct(ids);
    var m, cands, r := Misses(c, uniq), Candidates(c, uniq, maxInserts), AdmitEvent(c, uniq, pinned, maxInserts);
    CandidatesMissing(c, cap, uniq, maxInserts);
    AdmitWho(c, cap, uniq, cands, pinned, ids[i]);
    EarlyComesFirst(c, ids, i + 1);
    var k := WithinEarly(c, ids, i, m, cands, r.admitted);
    AdmitInOrder(c, cap, uniq, cands, pinned, k);
    OpenIsAvailable(c, ids, pinned, s);
    OpenIsAvailable(c, ids, pinned, r.cache.slotOf[ids[i]]);
    NotAmong(cands[..k + 1], ids[..i + 1], r.cache.tags[s]);
  }

  lemma NotAmong(a: seq<int>, b: seq<int>, x: int)
    requires Among(a, b) && x !in b
    ensures x !in a
  {
  }

  lemma OpenIsAvailable(c: Cache, ids: seq<int>, pinned: nat, s: int)
    ensures Open(c, ids, pinned, s) <==> s in Available(c, Distinct(ids), pinned)
  {
  }

  ghost predicate Among(a: seq<int>, b: seq<int>) { forall x :: 0 <= x < |a| ==> a[x] in b }

  /** Where among the candidates an entering expert stands; those before it were requested no later. */
  lemma WithinEarly(c: Cache, ids: seq<int>, i: nat, m: seq<int>, cands: seq<int>, admitted: nat) returns (k: nat)
    requires |c.slotOf| == EXPERTS && ValidIds(ids) && i < |ids| && !c.Resident(ids[i])
    requires NoDup(m) && Early(c, ids, i + 1) <= m && cands <= m && admitted <= |cands| && ids[i] in cands[..admitted]
    ensures k < admitted && cands[k] == ids[i]
    ensures Among(cands[..k + 1], ids[..i + 1])
  {
    var lead := Early(c, ids, i + 1);
    assert ids[..i + 1][i] == ids[i];
    assert ids[i] in lead;
    k :| 0 <= k < |lead| && lead[k] == ids[i];
    var j :| 0 <= j < admitted && cands[..admitted][j] == ids[i];
    assert m[k] == m[j] && k == j;
    var head := cands[..k + 1];
    forall x | 0 <= x < |head| ensures head[x] in ids[..i + 1] {
      assert lead[x] == head[x] && lead[x] in lead;
    }
  }

  // ---------------------------------------------------------------- how many enter, counted on sets

  ghost function OpenSlots(c: Cache, ids: seq<int>, pinned: nat): set<int> {
    set s | 0 <= s < |c.tags| && Open(c, ids, pinned, s)
  }

  /** How many enter, in terms of the requested and the resident experts alone: none when the requests are more than
      half the capacity, else as many as miss, up to the limit and to the open slots. */
  lemma HowManyEnter(c: Cache, cap: nat, ids: seq<int>, pinned: nat, maxInserts: nat)
    requires c.Valid(cap) && ValidIds(ids)
    ensures |Step(c, ids, pinned, maxInserts).Residents() - c.Residents()| ==
            if |ToSet(ids)| > cap / 2 then 0
            else Min(|ToSet(ids) - c.Residents()|, Min(maxInserts, |OpenSlots(c, ids, pinned)|))
  {
    EnteringIsAdmitted(c, cap, ids, pinned, maxInserts);
    DistinctSize(ids);
    MissesSize(c, ids);
    OpenSize(c, ids, pinned);
    AdmissionCount(c, cap, Distinct(ids), pinned, maxInserts);
  }

  lemma EnteringIsAdmitted(c: Cache, cap: nat, ids: seq<int>, pinned: nat, maxInserts: nat)
    requires c.Valid(cap) && ValidIds(ids)
    ensures |Step(c, ids, pinned, maxInserts).Residents() - c.Residents()|
            == AdmitEvent(c, Distinct(ids), pinned, maxInserts).admitted
  {
    var m, r := Misses(c, Distinct(ids)), AdmitEvent(c, Distinct(ids), pinned, maxInserts);
    NewResidents(c, cap, Distinct(ids), pinned, maxInserts);
    assert Step(c, ids, pinned, maxInserts).Residents() == r.cache.Residents();
    NoDupSize(m[..r.admitted]);
  }

  lemma DistinctSize(ids: seq<int>)
    ensures |Distinct(ids)| == |ToSet(ids)|
  {
    NoDupSize(Distinct(ids));
    assert ToSet(Distinct(ids)) == ToSet(ids);
  }

  lemma MissesSize(c: Cache, ids: seq<int>)
    requires |c.slotOf| == EXPERTS && ValidIds(ids)
    ensures |Misses(c, Distinct(ids))| == |ToSet(ids) - c.Residents()|
  {
    var m := Misses(c, Distinct(ids));
    NoDupSize(m);
    assert ToSet(m) == ToSet(ids) - c.Residents();
  }

  lemma OpenSize(c: Cache, ids: seq<int>, pinned: nat)
    ensures |FreeSlots(c)| + |EvictableSlots(c, Distinct(ids), pinned)| == |OpenSlots(c, ids, pinned)|
  {
    AvailableSize(c, Distinct(ids), pinned);
    assert Available(c, Distinct(ids), pinned) == OpenSlots(c, ids, pinned);
  }

  /** The request positions that find no slot. */
  ghost function AbsentAt(c: Cache, ids: seq<int>): set<int> { set i | 0 <= i < |ids| && !c.Resident(ids[i]) }

  lemma {:induction false} AbsentCount(c: Cache, ids: seq<int>)
    ensures AbsentPositions(c, ids) == |AbsentAt(c, ids)|
  {
    if ids == [] {
      assert AbsentAt(c, ids) == {};
    } else {
      var k := |ids| - 1;
      AbsentCount(c, ids[..k]);
      OneMorePosition(c, ids[..k], ids[k], ids);
    }
  }

  lemma OneMorePosition(c: Cache, p: seq<int>, e: int, ids: seq<int>)
    requires ids == p + [e]
    ensures |AbsentAt(c, ids)| == |AbsentAt(c, p)| + if c.Resident(e) then 0 else 1
  {
    assert ids[|p|] == e && forall i :: 0 <= i < |p| ==> ids[i] == p[i];
    assert AbsentAt(c, ids) == AbsentAt(c, p) + if c.Resident(e) then {} else {|p|};
  }

  /** The uncached count is the number of requested experts left without a slot. */
  lemma UncachedCount(c: Cache, cap: nat, ids: seq<int>, pinned: nat, maxInserts: nat)
    requires c.Valid(cap) && ValidIds(ids)
    ensures |Misses(c, Distinct(ids))| - AdmitEvent(c, Distinct(ids), pinned, maxInserts).admitted
            == |ToSet(ids) - Step(c, ids, pinned, maxInserts).Residents()|
  {
    var m, r := Misses(c, Distinct(ids)), AdmitEvent(c, Distinct(ids), pinned, maxInserts);
    RequestedResidents(c, cap, Distinct(ids), pinned, maxInserts);
    LeftWithout(ids, r.cache, m[r.admitted..]);
    NoDupSize(m[r.admitted..]);
    assert Step(c, ids, pinned, maxInserts).Residents() == r.cache.Residents();
  }

  lemma LeftWithout(ids: seq<int>, after: Cache, rest: seq<int>)
    requires forall e :: e in Distinct(ids) && !after.Resident(e) <==> e in rest
    ensures ToSet(ids) - after.Residents() == ToSet(rest)
  {
    forall e ensures e in ToSet(ids) - after.Residents() <==> e in ToSet(rest) {
      assert e in Distinct(ids) && !after.Resident(e) <==> e in rest;
    }
  }
}
