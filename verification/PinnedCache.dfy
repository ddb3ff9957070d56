/** The expert cache planner that pin_sim replays: a table of slots holding experts, its inverse
    map, one clock per slot, and a prefix of slots that is never evicted.

    The first half of the module is the meaning of one event on values; `PinnedCacheRuns` proves the
    properties of whole replays, and `PinnedCacheDevice` holds the in-place planners. */
module PinnedCache {
  import opened Sets

  const EXPERTS: nat := 512
  const MAX_INSERTS: nat := 64

  /** `tags[s]` is the expert in slot s, `slotOf[e]` the slot of expert e; -1 marks "none". */
  datatype Cache = Cache(tags: seq<int>, slotOf: seq<int>, clock: seq<int>, event: int) {
    ghost predicate Valid(cap: nat) {
      && |tags| == |clock| == cap && |slotOf| == EXPERTS
      && 0 <= event
      && (forall s :: 0 <= s < cap ==> -1 <= tags[s] < EXPERTS && (tags[s] >= 0 ==> slotOf[tags[s]] == s))
      && (forall e :: 0 <= e < EXPERTS ==> -1 <= slotOf[e] < cap && (slotOf[e] >= 0 ==> tags[slotOf[e]] == e))
      && (forall s :: 0 <= s < cap ==> 0 <= clock[s] <= event)
    }

    predicate Resident(e: int) {
      0 <= e < |slotOf| && slotOf[e] >= 0
    }

    ghost function Residents(): set<int> {
      set e | 0 <= e < |slotOf| && slotOf[e] >= 0
    }
  }

  ghost predicate ValidIds(ids: seq<int>) {
    forall i :: 0 <= i < |ids| ==> 0 <= ids[i] < EXPERTS
  }

  /** The requested experts, each once, in first-touch order. */
  function Distinct(ids: seq<int>): (u: seq<int>)
    ensures NoDup(u) && |u| <= |ids|
    ensures ValidIds(ids) ==> ValidIds(u)
    ensures forall e :: e in u <==> e in ids
  {
    if ids == [] then []
    else
      var u := Distinct(ids[..|ids| - 1]);
      var last := ids[|ids| - 1];
      assert ids == ids[..|ids| - 1] + [last];
      if last in u then u else u + [last]
  }

  /** The experts of `uniq` that have no slot, in the order of `uniq`. */
  function Misses(c: Cache, uniq: seq<int>): (m: seq<int>)
    requires |c.slotOf| == EXPERTS && ValidIds(uniq) && NoDup(uniq)
    ensures NoDup(m) && |m| <= |uniq| && ValidIds(m)
    ensures forall e :: e in m <==> e in uniq && !c.Resident(e)
  {
    if uniq == [] then []
    else
      var last := uniq[|uniq| - 1];
      assert uniq == uniq[..|uniq| - 1] + [last];
      var m := Misses(c, uniq[..|uniq| - 1]);
      assert last !in uniq[..|uniq| - 1];
      if c.slotOf[last] >= 0 then m else m + [last]
  }

  /** A slot whose expert may be replaced: occupied, not pinned, and not requested in this event. */
  predicate Evictable(c: Cache, uniq: seq<int>, pinned: nat, s: int) {
    pinned <= s < |c.tags| && c.tags[s] >= 0 && c.tags[s] !in uniq
  }

  /** The lowest empty slot at or after `s`, or -1. */
  function FirstFree(tags: seq<int>, s: nat): (t: int)
    requires s <= |tags|
    ensures t == -1 || s <= t < |tags|
    ensures t == -1 ==> forall k :: s <= k < |tags| ==> tags[k] >= 0
    ensures t >= 0 ==> tags[t] < 0 && forall k :: s <= k < t ==> tags[k] >= 0
    decreases |tags| - s
  {
    if s == |tags| then -1 else if tags[s] < 0 then s else FirstFree(tags, s + 1)
  }

  /** The evictable slot below `hi` with the smallest clock, the lowest such slot on a tie, or -1. */
  function LeastClock(c: Cache, uniq: seq<int>, pinned: nat, hi: nat): (t: int)
    requires hi <= |c.tags| == |c.clock|
    ensures t == -1 || (t < hi && Evictable(c, uniq, pinned, t))
    ensures t == -1 ==> forall s :: s < hi ==> !Evictable(c, uniq, pinned, s)
    ensures t >= 0 ==> forall s :: s < hi && Evictable(c, uniq, pinned, s) ==>
                         c.clock[t] < c.clock[s] || (c.clock[t] == c.clock[s] && t <= s)
  {
    if hi == 0 then -1
    else
      var t := LeastClock(c, uniq, pinned, hi - 1);
      if Evictable(c, uniq, pinned, hi - 1) && (t < 0 || c.clock[hi - 1] < c.clock[t]) then hi - 1 else t
  }

  /** Where the next admission goes: an empty slot if there is one, else the least recent evictable slot. */
  function Target(c: Cache, uniq: seq<int>, pinned: nat): (t: int)
    requires |c.tags| == |c.clock|
    ensures -1 <= t < |c.tags|
    ensures t < 0 <==> Available(c, uniq, pinned) == {}
    ensures t >= 0 ==> t in Available(c, uniq, pinned)
    ensures t >= 0 && c.tags[t] >= 0 ==>
              (forall s :: 0 <= s < |c.tags| ==> c.tags[s] >= 0) &&
              (forall s :: Evictable(c, uniq, pinned, s) ==> c.clock[t] <= c.clock[s])
  {
    var free := FirstFree(c.tags, 0);
    var t := if free >= 0 then free else LeastClock(c, uniq, pinned, |c.tags|);
    assert t >= 0 ==> t in Available(c, uniq, pinned);
    t
  }

  /** The slots an admission may take. */
  ghost function Available(c: Cache, uniq: seq<int>, pinned: nat): set<int> {
    set s | 0 <= s < |c.tags| && (c.tags[s] < 0 || Evictable(c, uniq, pinned, s))
  }

  /** Put expert e in slot t, unmapping the expert that was there. */
  function Place(c: Cache, e: int, t: int): Cache
    requires |c.slotOf| == EXPERTS && 0 <= e < EXPERTS && 0 <= t < |c.tags| && c.tags[t] < EXPERTS
  {
    var slotOf := if c.tags[t] >= 0 then c.slotOf[c.tags[t] := -1] else c.slotOf;
    Cache(c.tags[t := e], slotOf[e := t], c.clock, c.event)
  }

  datatype Admission = Admission(cache: Cache, admitted: nat)

  /** Admit the candidates in order until one finds no slot. */
  function Admit(c: Cache, uniq: seq<int>, cands: seq<int>, pinned: nat): (r: Admission)
    requires |c.tags| == |c.clock| && |c.slotOf| == EXPERTS && ValidIds(cands)
    requires forall s :: 0 <= s < |c.tags| ==> c.tags[s] < EXPERTS
    ensures r.admitted <= |cands|
    ensures r.cache.clock == c.clock && r.cache.event == c.event
    ensures |r.cache.tags| == |c.tags| && |r.cache.slotOf| == EXPERTS
    decreases |cands|
  {
    if cands == [] then Admission(c, 0)
    else
      var t := Target(c, uniq, pinned);
      if t < 0 then Admission(c, 0)
      else
        var r := Admit(Place(c, cands[0], t), uniq, cands[1..], pinned);
        Admission(r.cache, r.admitted + 1)
  }

  /** Stamp every slot that holds a requested expert with the new event number. */
  function Touch(c: Cache, uniq: seq<int>): Cache
    requires |c.tags| == |c.clock|
  {
    Cache(c.tags, c.slotOf,
          seq(|c.clock|, s requires 0 <= s < |c.tags| => if c.tags[s] in uniq then c.event + 1 else c.clock[s]),
          c.event + 1)
  }

  /** The candidates of one event: none when more than half the capacity is requested. */
  function Candidates(c: Cache, uniq: seq<int>, maxInserts: nat): (m: seq<int>)
    requires |c.slotOf| == EXPERTS && ValidIds(uniq) && NoDup(uniq)
    ensures m <= Misses(c, uniq)
  {
    var m := Misses(c, uniq);
    if |uniq| > |c.tags| / 2 then [] else if |m| <= maxInserts then m else m[..maxInserts]
  }

  function AdmitEvent(c: Cache, uniq: seq<int>, pinned: nat, maxInserts: nat): (r: Admission)
    requires |c.tags| == |c.clock| && |c.slotOf| == EXPERTS && ValidIds(uniq) && NoDup(uniq)
    requires forall s :: 0 <= s < |c.tags| ==> c.tags[s] < EXPERTS
    ensures |r.cache.tags| == |r.cache.clock|
  {
    var cands := Candidates(c, uniq, maxInserts);
    Admit(c, uniq, cands, pinned)
  }

  /** One whole event on the cache. */
  function Step(c: Cache, ids: seq<int>, pinned: nat, maxInserts: nat): Cache
    requires |c.tags| == |c.clock| && |c.slotOf| == EXPERTS && ValidIds(ids)
    requires forall s :: 0 <= s < |c.tags| ==> c.tags[s] < EXPERTS
  {
    var uniq := Distinct(ids);
    Touch(AdmitEvent(c, uniq, pinned, maxInserts).cache, uniq)
  }

  /** Number of request positions whose expert has no slot. */
  function AbsentPositions(c: Cache, ids: seq<int>): (n: nat)
    ensures n <= |ids|
  {
    if ids == [] then 0
    else AbsentPositions(c, ids[..|ids| - 1]) + if c.Resident(ids[|ids| - 1]) then 0 else 1
  }
}
