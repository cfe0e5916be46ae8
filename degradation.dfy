/** Degradation: particles shrink once per resident degrader, eroded particles
    leave the live list and release their occupants. */
module Degradation {
  import opened Entities

  /** The factor one resident degrader applies to a particle's size;
      hydrolyzable plastics shrink faster. */
  function DegradeFactor(hydrolyzable: bool, adjDegradation: real): (f: real)
    ensures 0.0 <= adjDegradation <= 0.15 ==> 0.0 < f < 1.0
  {
    if hydrolyzable then (DegradationRate - adjDegradation) * 0.9
    else DegradationRate - adjDegradation
  }

  /** While the rate stays above the adjustment, a hydrolyzable particle
      shrinks strictly faster than a non-hydrolyzable one. */
  lemma {:induction false} HydrolyzableShrinksFaster(adjDegradation: real)
    requires adjDegradation < DegradationRate
    ensures DegradeFactor(true, adjDegradation) < DegradeFactor(false, adjDegradation)
  {
  }

  /** The resident loop: the size is multiplied by `factor` once per
      degrader among the occupants, in occupant order. */
  function Shrunk(size: real, factor: real, occ: seq<AgentId>, arena: seq<Agent>): (r: real)
    requires Below(occ, |arena|)
    ensures CountDegraders(occ, arena) == 0 ==> r == size
    decreases |occ|
  {
    if occ == [] then size
    else
      var next := if arena[occ[0]].organismType == Degrader then size * factor else size;
      Shrunk(next, factor, occ[1..], arena)
  }

  /** One step of the resident loop. */
  lemma {:induction false} ShrunkStep(size: real, factor: real, occ: seq<AgentId>, arena: seq<Agent>)
    requires Below(occ, |arena|) && occ != []
    ensures Below(occ[1..], |arena|)
    ensures Shrunk(size, factor, occ, arena)
      == Shrunk(if arena[occ[0]].organismType == Degrader then size * factor else size, factor, occ[1..], arena)
  {
    assert forall k :: 1 <= k < |occ| ==> occ[k] == occ[1..][k - 1];
  }

  function CountDegraders(occ: seq<AgentId>, arena: seq<Agent>): nat
    requires Below(occ, |arena|)
    decreases |occ|
  {
    if occ == [] then 0
    else (if arena[occ[0]].organismType == Degrader then 1 else 0) + CountDegraders(occ[1..], arena)
  }

  function Pow(f: real, n: nat): real
  {
    if n == 0 then 1.0 else f * Pow(f, n - 1)
  }

  /** The loop multiplies by the factor exactly once per resident degrader. */
  lemma {:induction false} ShrunkIsPower(size: real, factor: real, occ: seq<AgentId>, arena: seq<Agent>)
    requires Below(occ, |arena|)
    ensures Shrunk(size, factor, occ, arena) == size * Pow(factor, CountDegraders(occ, arena))
    decreases |occ|
  {
    if occ == [] {
      assert Pow(factor, 0) == 1.0;
    } else if arena[occ[0]].organismType == Degrader {
      ShrunkStep(size, factor, occ, arena);
      ShrunkIsPower(size * factor, factor, occ[1..], arena);
      DegraderStep(size, factor, occ, arena);
    } else {
      ShrunkStep(size, factor, occ, arena);
      ShrunkIsPower(size, factor, occ[1..], arena);
      assert CountDegraders(occ, arena) == CountDegraders(occ[1..], arena);
    }
  }

  /** A leading degrader contributes one more power of the factor. */
  lemma {:induction false} DegraderStep(size: real, factor: real, occ: seq<AgentId>, arena: seq<Agent>)
    requires Below(occ, |arena|) && occ != [] && arena[occ[0]].organismType == Degrader
    requires Shrunk(size * factor, factor, occ[1..], arena)
      == (size * factor) * Pow(factor, CountDegraders(occ[1..], arena))
    ensures Shrunk(size, factor, occ, arena) == size * Pow(factor, CountDegraders(occ, arena))
  {
    ShrunkStep(size, factor, occ, arena);
    var n := CountDegraders(occ[1..], arena);
    assert CountDegraders(occ, arena) == n + 1;
    PowStep(size, factor, n);
  }

  /** Multiplying first by the factor is one more power of it. */
  lemma {:induction false} PowStep(size: real, factor: real, n: nat)
    ensures (size * factor) * Pow(factor, n) == size * Pow(factor, n + 1)
  {
    var p := Pow(factor, n);
    assert Pow(factor, n + 1) == factor * p;
    assert (size * factor) * p == size * (factor * p);
  }

  /** With a factor in (0, 1), a positive size stays positive and never
      grows; it shrinks strictly exactly when some occupant is a degrader. */
  lemma {:induction false} ShrunkNeverGrows(size: real, factor: real, occ: seq<AgentId>, arena: seq<Agent>)
    requires Below(occ, |arena|)
    requires 0.0 < size && 0.0 < factor < 1.0
    ensures 0.0 < Shrunk(size, factor, occ, arena) <= size
    ensures Shrunk(size, factor, occ, arena) < size <==> CountDegraders(occ, arena) > 0
    decreases |occ|
  {
    if occ != [] {
      if arena[occ[0]].organismType == Degrader {
        assert 0.0 < size * factor < size;
        ShrunkNeverGrows(size * factor, factor, occ[1..], arena);
      } else {
        ShrunkNeverGrows(size, factor, occ[1..], arena);
      }
    }
  }

  /** Releasing agents does not change their types, hence not the shrinkage. */
  lemma {:induction false} ShrunkDependsOnTypes(size: real, factor: real, occ: seq<AgentId>, a1: seq<Agent>, a2: seq<Agent>)
    requires Below(occ, |a1|) && |a1| == |a2|
    requires forall b :: 0 <= b < |a1| ==> a1[b].organismType == a2[b].organismType
    ensures Shrunk(size, factor, occ, a1) == Shrunk(size, factor, occ, a2)
    decreases |occ|
  {
    if occ != [] {
      var next := if a1[occ[0]].organismType == Degrader then size * factor else size;
      ShrunkDependsOnTypes(next, factor, occ[1..], a1, a2);
    }
  }

  /** The size a particle reaches in one degradation pass. */
  function NewSize(m: Microplastic, arena: seq<Agent>, adjDegradation: real): real
    requires Below(m.organisms, |arena|)
  {
    Shrunk(m.size, DegradeFactor(m.hydrolyzable, adjDegradation), m.organisms, arena)
  }

  /** A released agent: free-floating, attached to nothing. */
  function Freed(a: Agent): Agent
  {
    a.(isColonizing := false, plasticAttached := None)
  }

  /** The release loop over a removed particle's occupants. */
  function Release(arena: seq<Agent>, occ: seq<AgentId>): (r: seq<Agent>)
    requires Below(occ, |arena|)
    ensures |r| == |arena|
    ensures forall b :: 0 <= b < |arena| ==> r[b] == if b in occ then Freed(arena[b]) else arena[b]
    decreases |occ|
  {
    if occ == [] then arena
    else Release(arena[occ[0] := Freed(arena[occ[0]])], occ[1..])
  }

  /** The resident loop of `degrade_plastics` applied to particle `p`. */
  function ShrinkOne(e: Ecosystem, p: PlasticId, adjDegradation: real): (r: Ecosystem)
    requires WellFormed(e) && p < |e.plastics|
    ensures WellFormed(r)
    ensures r.agents == e.agents && r.microplastics == e.microplastics && r.arena == e.arena
    ensures |r.plastics| == |e.plastics|
  {
    var m := e.plastics[p];
    assert PlasticOk(m, |e.arena|);
    var r := e.(plastics := e.plastics[p := m.(size := NewSize(m, e.arena, adjDegradation))]);
    assert ArenasOk(r.arena, r.plastics) by {
      forall q | 0 <= q < |r.plastics| ensures PlasticOk(r.plastics[q], |r.arena|) {
        assert PlasticOk(e.plastics[q], |e.arena|);
      }
      forall k | 0 <= k < |r.arena| ensures AgentOk(r.arena[k], |r.plastics|) {
        assert AgentOk(e.arena[k], |e.plastics|);
      }
    }
    r
  }

  /** Removal of an eroded particle `p` from the live list, releasing its
      occupants if it is colonized. */
  function RemoveEroded(e: Ecosystem, p: PlasticId): (r: Ecosystem)
    requires WellFormed(e) && p < |e.plastics|
    ensures WellFormed(r)
    ensures r.agents == e.agents && r.plastics == e.plastics && |r.arena| == |e.arena|
    ensures r.microplastics == RemoveFirst<PlasticId>(e.microplastics, p)
    ensures r.arena == if e.plastics[p].isColonized then Release(e.arena, e.plastics[p].organisms) else e.arena
  {
    var m := e.plastics[p];
    assert PlasticOk(m, |e.arena|);
    var live := RemoveFirst<PlasticId>(e.microplastics, p);
    var arena := if m.isColonized then Release(e.arena, m.organisms) else e.arena;
    assert Below(live, |e.plastics|) by {
      forall k | 0 <= k < |live| ensures live[k] < |e.plastics| {
        assert live[k] in e.microplastics;
      }
    }
    assert forall k :: 0 <= k < |arena| ==> AgentOk(arena[k], |e.plastics|) by {
      forall k | 0 <= k < |arena| ensures AgentOk(arena[k], |e.plastics|) {
        assert AgentOk(e.arena[k], |e.plastics|);
      }
    }
    assert forall q :: 0 <= q < |e.plastics| ==> PlasticOk(e.plastics[q], |arena|) by {
      forall q | 0 <= q < |e.plastics| ensures PlasticOk(e.plastics[q], |arena|) {
        assert PlasticOk(e.plastics[q], |e.arena|);
      }
    }
    e.(microplastics := live, arena := arena)
  }

  /** One iteration of `degrade_plastics` for particle `p`. */
  function DegradeOne(e: Ecosystem, p: PlasticId, adjDegradation: real): (r: Ecosystem)
    requires WellFormed(e) && p < |e.plastics|
    ensures WellFormed(r)
    ensures r.agents == e.agents && |r.arena| == |e.arena| && |r.plastics| == |e.plastics|
  {
    var e1 := ShrinkOne(e, p, adjDegradation);
    if e1.plastics[p].size <= MinDegradableSize then RemoveEroded(e1, p) else e1
  }

  /** The pass over the snapshot `snap` of the live list. */
  function DegradeEach(e: Ecosystem, snap: seq<PlasticId>, adjDegradation: real): (r: Ecosystem)
    requires WellFormed(e) && Below(snap, |e.plastics|)
    ensures WellFormed(r)
    ensures r.agents == e.agents && |r.arena| == |e.arena| && |r.plastics| == |e.plastics|
    decreases |snap|
  {
    if snap == [] then e
    else DegradeEach(DegradeOne(e, snap[0], adjDegradation), snap[1..], adjDegradation)
  }

  /** `degrade_plastics`: iterate over a copy of the live list. */
  function Degrade(e: Ecosystem, adjDegradation: real): (r: Ecosystem)
    requires WellFormed(e)
    ensures WellFormed(r)
    ensures r.agents == e.agents && |r.arena| == |e.arena| && |r.plastics| == |e.plastics|
  {
    DegradeEach(e, e.microplastics, adjDegradation)
  }

  /** The particles of `live` still above the removal threshold, in order. */
  function KeepLarge(live: seq<PlasticId>, plastics: seq<Microplastic>): (r: seq<PlasticId>)
    requires Below(live, |plastics|)
    ensures |r| <= |live|
    decreases |live|
  {
    if live == [] then []
    else
      assert Below(live[1..], |plastics|) by {
        assert forall k :: 1 <= k < |live| ==> live[k] == live[1..][k - 1];
      }
      var rest := KeepLarge(live[1..], plastics);
      if plastics[live[0]].size > MinDegradableSize then [live[0]] + rest else rest
  }

  /** Every kept particle comes from `live` and is above the removal
      threshold. */
  lemma {:induction false} KeepLargeSound(live: seq<PlasticId>, plastics: seq<Microplastic>)
    requires Below(live, |plastics|)
    ensures forall k :: 0 <= k < |KeepLarge(live, plastics)| ==> KeepLarge(live, plastics)[k] in live
    ensures forall k :: 0 <= k < |KeepLarge(live, plastics)| ==>
      plastics[KeepLarge(live, plastics)[k]].size > MinDegradableSize
    decreases |live|
  {
    if live != [] {
      assert forall k :: 1 <= k < |live| ==> live[k] == live[1..][k - 1];
      KeepLargeSound(live[1..], plastics);
      var rest := KeepLarge(live[1..], plastics);
      forall k | 0 <= k < |rest| ensures rest[k] in live {
        var j :| 0 <= j < |live[1..]| && live[1..][j] == rest[k];
        assert live[j + 1] == rest[k];
      }
      if plastics[live[0]].size > MinDegradableSize {
        assert KeepLarge(live, plastics) == [live[0]] + rest;
      } else {
        assert KeepLarge(live, plastics) == rest;
      }
    }
  }

  /** Every particle of `live` above the removal threshold is kept. */
  lemma {:induction false} KeepLargeComplete(live: seq<PlasticId>, plastics: seq<Microplastic>)
    requires Below(live, |plastics|)
    ensures forall k :: 0 <= k < |live| && plastics[live[k]].size > MinDegradableSize ==> live[k] in KeepLarge(live, plastics)
    decreases |live|
  {
    if live != [] {
      assert forall k :: 1 <= k < |live| ==> live[k] == live[1..][k - 1];
      KeepLargeComplete(live[1..], plastics);
    }
  }

  /** Filtering a list without repeats gives a list without repeats. */
  lemma {:induction false} KeepLargeNoDup(live: seq<PlasticId>, plastics: seq<Microplastic>)
    requires Below(live, |plastics|) && NoDup(live)
    ensures NoDup(KeepLarge(live, plastics))
    decreases |live|
  {
    if live != [] {
      assert forall k :: 1 <= k < |live| ==> live[k] == live[1..][k - 1];
      NoDupHead(live);
      KeepLargeNoDup(live[1..], plastics);
      var rest := KeepLarge(live[1..], plastics);
      if plastics[live[0]].size > MinDegradableSize {
        KeepLargeSound(live[1..], plastics);
        assert forall k :: 0 <= k < |rest| ==> rest[k] in live[1..];
        assert live[0] !in rest;
        NoDupPrepend(live[0], rest);
        assert KeepLarge(live, plastics) == [live[0]] + rest;
      }
    }
  }

  /** Occupants released by the pass over `snap`, judged on the final sizes:
      those of every colonized particle that fell to the removal threshold. */
  function ReleasedBy(snap: seq<PlasticId>, plastics: seq<Microplastic>): set<AgentId>
    requires Below(snap, |plastics|)
    decreases |snap|
  {
    if snap == [] then {}
    else
      var m := plastics[snap[0]];
      (if m.size <= MinDegradableSize && m.isColonized then set b | b in m.organisms else {})
      + ReleasedBy(snap[1..], plastics)
  }

  /** The live list before a pass step is `pre` (already handled, kept) then
      the snapshot `snap` still to do. */
  predicate PassState(e: Ecosystem, pre: seq<PlasticId>, snap: seq<PlasticId>)
  {
    WellFormed(e) && e.microplastics == pre + snap && NoDup(e.microplastics)
  }

  /** One step of the pass: the head of the snapshot gets its new size and,
      if eroded, leaves the live list and releases its occupants. */
  lemma {:induction false} DegradeStep(e: Ecosystem, pre: seq<PlasticId>, snap: seq<PlasticId>, adjDegradation: real)
    requires PassState(e, pre, snap) && snap != []
    ensures Below(snap, |e.plastics|) && PlasticOk(e.plastics[snap[0]], |e.arena|)
    ensures NoDup(snap) && snap[0] !in snap[1..]
    ensures
      var p := snap[0];
      var m := e.plastics[p];
      var m' := m.(size := NewSize(m, e.arena, adjDegradation));
      var eroded := m'.size <= MinDegradableSize;
      var e1 := DegradeOne(e, p, adjDegradation);
      && e1.plastics == e.plastics[p := m']
      && e1.arena == (if eroded && m.isColonized then Release(e.arena, m.organisms) else e.arena)
      && PassState(e1, if eroded then pre else pre + [p], snap[1..])
  {
    var p := snap[0];
    assert forall k :: 0 <= k < |snap| ==> snap[k] == e.microplastics[|pre| + k];
    DegradeOneEffect(e, p, adjDegradation);
    NoDupRemoveAt(e.microplastics, |pre|);
    assert e.microplastics[|pre|] == p;
    assert (pre + snap)[..|pre|] == pre && (pre + snap)[|pre| + 1..] == snap[1..];
    NoDupSuffix(pre, snap);
    assert (pre + [p]) + snap[1..] == pre + snap;
  }

  /** One iteration on particle `p`: it gets its new size and, if eroded,
      leaves the live list and releases its occupants when colonized. */
  lemma {:induction false} DegradeOneEffect(e: Ecosystem, p: PlasticId, adjDegradation: real)
    requires WellFormed(e) && p < |e.plastics|
    ensures PlasticOk(e.plastics[p], |e.arena|)
    ensures
      var m := e.plastics[p];
      var m' := m.(size := NewSize(m, e.arena, adjDegradation));
      var eroded := m'.size <= MinDegradableSize;
      var e1 := DegradeOne(e, p, adjDegradation);
      && e1.plastics == e.plastics[p := m']
      && e1.arena == (if eroded && m.isColonized then Release(e.arena, m.organisms) else e.arena)
      && e1.microplastics == (if eroded then RemoveFirst<PlasticId>(e.microplastics, p) else e.microplastics)
  {
    assert PlasticOk(e.plastics[p], |e.arena|);
    var m := e.plastics[p];
    var m' := m.(size := NewSize(m, e.arena, adjDegradation));
    var s1 := ShrinkOne(e, p, adjDegradation);
    assert s1.plastics == e.plastics[p := m'];
  }

  /** Each snapshot particle ends with the size computed from the state
      before the pass; no other particle changes. */
  lemma {:induction false} DegradeEachSize(e: Ecosystem, pre: seq<PlasticId>, snap: seq<PlasticId>, adjDegradation: real, q: PlasticId)
    requires PassState(e, pre, snap) && q < |e.plastics|
    ensures Below(snap, |e.plastics|) && PlasticOk(e.plastics[q], |e.arena|)
    ensures DegradeEach(e, snap, adjDegradation).plastics[q]
      == if q in snap then e.plastics[q].(size := NewSize(e.plastics[q], e.arena, adjDegradation)) else e.plastics[q]
    decreases |snap|
  {
    NoDupSuffixBelow(e, pre, snap);
    assert PlasticOk(e.plastics[q], |e.arena|);
    if snap != [] {
      var p := snap[0];
      DegradeStep(e, pre, snap, adjDegradation);
      var e1 := DegradeOne(e, p, adjDegradation);
      var m := e.plastics[p];
      var eroded := NewSize(m, e.arena, adjDegradation) <= MinDegradableSize;
      DegradeEachSize(e1, if eroded then pre else pre + [p], snap[1..], adjDegradation, q);
      if q != p && q in snap[1..] {
        assert forall b :: 0 <= b < |e.arena| ==> e1.arena[b].organismType == e.arena[b].organismType;
        ShrunkDependsOnTypes(e.plastics[q].size, DegradeFactor(e.plastics[q].hydrolyzable, adjDegradation),
                             e.plastics[q].organisms, e1.arena, e.arena);
      }
    }
  }

  lemma {:induction false} NoDupSuffixBelow(e: Ecosystem, pre: seq<PlasticId>, snap: seq<PlasticId>)
    requires PassState(e, pre, snap)
    ensures Below(snap, |e.plastics|)
  {
    assert forall k :: 0 <= k < |snap| ==> snap[k] == e.microplastics[|pre| + k];
  }

  /** A particle outside the snapshot keeps its record through the pass. */
  lemma {:induction false} PassHeadKept(e: Ecosystem, pre: seq<PlasticId>, snap: seq<PlasticId>, adjDegradation: real, p: PlasticId)
    requires PassState(e, pre, snap) && p < |e.plastics| && p !in snap
    ensures Below(snap, |e.plastics|)
    ensures DegradeEach(e, snap, adjDegradation).plastics[p] == e.plastics[p]
  {
    DegradeEachSize(e, pre, snap, adjDegradation, p);
  }

  /** One step of the live-list bookkeeping: a kept head moves from the
      snapshot to the handled prefix. */
  lemma {:induction false} KeepLargeStep(pre: seq<PlasticId>, pre': seq<PlasticId>, snap: seq<PlasticId>, plastics: seq<Microplastic>)
    requires Below(snap, |plastics|) && snap != []
    requires pre' == if plastics[snap[0]].size > MinDegradableSize then pre + [snap[0]] else pre
    ensures Below(snap[1..], |plastics|)
    ensures pre' + KeepLarge(snap[1..], plastics) == pre + KeepLarge(snap, plastics)
  {
    assert Below(snap[1..], |plastics|) by {
      assert forall k :: 1 <= k < |snap| ==> snap[k] == snap[1..][k - 1];
    }
    var rest := KeepLarge(snap[1..], plastics);
    if plastics[snap[0]].size > MinDegradableSize {
      assert KeepLarge(snap, plastics) == [snap[0]] + rest;
      assert (pre + [snap[0]]) + rest == pre + ([snap[0]] + rest);
    } else {
      assert KeepLarge(snap, plastics) == rest;
    }
  }

  /** The live list keeps, in order, exactly the snapshot particles whose new
      size is above the removal threshold. */
  lemma {:induction false} DegradeEachLive(e: Ecosystem, pre: seq<PlasticId>, snap: seq<PlasticId>, adjDegradation: real)
    requires PassState(e, pre, snap)
    ensures Below(snap, |e.plastics|)
    ensures
      var r := DegradeEach(e, snap, adjDegradation);
      r.microplastics == pre + KeepLarge(snap, r.plastics)
    decreases |snap|
  {
    assert Below(snap, |e.plastics|) by { NoDupSuffixBelow(e, pre, snap); }
    if snap != [] {
      var p := snap[0];
      DegradeStep(e, pre, snap, adjDegradation);
      var e1 := DegradeOne(e, p, adjDegradation);
      var m := e.plastics[p];
      var m' := m.(size := NewSize(m, e.arena, adjDegradation));
      var eroded := m'.size <= MinDegradableSize;
      var pre' := if eroded then pre else pre + [p];
      DegradeEachLive(e1, pre', snap[1..], adjDegradation);
      var r := DegradeEach(e1, snap[1..], adjDegradation);
      assert r == DegradeEach(e, snap, adjDegradation);
      PassHeadKept(e1, pre', snap[1..], adjDegradation, p);
      assert r.plastics[p] == m';
      KeepLargeStep(pre, pre', snap, r.plastics);
    }
  }

  /** Exactly the occupants of removed colonized snapshot particles are
      released; every other agent is unchanged. */
  lemma {:induction false} DegradeEachReleases(e: Ecosystem, pre: seq<PlasticId>, snap: seq<PlasticId>, adjDegradation: real)
    requires PassState(e, pre, snap)
    ensures Below(snap, |e.plastics|)
    ensures
      var r := DegradeEach(e, snap, adjDegradation);
      forall b :: 0 <= b < |e.arena| ==>
        r.arena[b] == if b in ReleasedBy(snap, r.plastics) then Freed(e.arena[b]) else e.arena[b]
    decreases |snap|
  {
    NoDupSuffixBelow(e, pre, snap);
    if snap != [] {
      var p := snap[0];
      DegradeStep(e, pre, snap, adjDegradation);
      var e1 := DegradeOne(e, p, adjDegradation);
      var m := e.plastics[p];
      var m' := m.(size := NewSize(m, e.arena, adjDegradation));
      var eroded := m'.size <= MinDegradableSize;
      var pre' := if eroded then pre else pre + [p];
      DegradeEachReleases(e1, pre', snap[1..], adjDegradation);
      var r := DegradeEach(e1, snap[1..], adjDegradation);
      assert r == DegradeEach(e, snap, adjDegradation);
      PassHeadKept(e1, pre', snap[1..], adjDegradation, p);
      assert r.plastics[p] == m';
      var here := if eroded && m.isColonized then set b | b in m.organisms else {};
      var later := ReleasedBy(snap[1..], r.plastics);
      assert ReleasedBy(snap, r.plastics) == here + later;
      forall b | 0 <= b < |e.arena|
        ensures r.arena[b] == if b in here + later then Freed(e.arena[b]) else e.arena[b]
      {
        assert e1.arena[b] == if b in here then Freed(e.arena[b]) else e.arena[b];
      }
    }
  }

  lemma {:induction false} ReleasedByWitness(snap: seq<PlasticId>, plastics: seq<Microplastic>, b: AgentId)
    requires Below(snap, |plastics|) && b in ReleasedBy(snap, plastics)
    ensures exists i :: 0 <= i < |snap| && plastics[snap[i]].size <= MinDegradableSize && b in plastics[snap[i]].organisms
    decreases |snap|
  {
    var m := plastics[snap[0]];
    if !(m.size <= MinDegradableSize && m.isColonized && b in m.organisms) {
      ReleasedByWitness(snap[1..], plastics, b);
      var i :| 0 <= i < |snap[1..]| && plastics[snap[1..][i]].size <= MinDegradableSize && b in plastics[snap[1..][i]].organisms;
      assert snap[1..][i] == snap[i + 1];
    }
  }

  lemma {:induction false} ReleasedByContains(snap: seq<PlasticId>, plastics: seq<Microplastic>, i: nat, b: AgentId)
    requires Below(snap, |plastics|) && i < |snap|
    requires plastics[snap[i]].size <= MinDegradableSize && plastics[snap[i]].isColonized && b in plastics[snap[i]].organisms
    ensures b in ReleasedBy(snap, plastics)
    decreases |snap|
  {
    if i > 0 {
      assert snap[1..][i - 1] == snap[i];
      ReleasedByContains(snap[1..], plastics, i - 1, b);
    }
  }

  lemma {:induction false} StartPass(e: Ecosystem)
    requires WellFormed(e) && NoDup(e.microplastics)
    ensures PassState(e, [], e.microplastics)
  {
    assert e.microplastics == [] + e.microplastics;
  }

  /** `degrade_plastics`, sizes: every live particle gets the size computed
      from its own occupants before the pass, and nothing else of it changes. */
  lemma {:induction false} DegradeSizes(e: Ecosystem, adjDegradation: real)
    requires WellFormed(e) && NoDup(e.microplastics)
    ensures forall i :: 0 <= i < |e.microplastics| ==>
      var m := e.plastics[e.microplastics[i]];
      PlasticOk(m, |e.arena|) &&
      Degrade(e, adjDegradation).plastics[e.microplastics[i]] == m.(size := NewSize(m, e.arena, adjDegradation))
  {
    StartPass(e);
    forall i | 0 <= i < |e.microplastics|
      ensures PlasticOk(e.plastics[e.microplastics[i]], |e.arena|)
      ensures Degrade(e, adjDegradation).plastics[e.microplastics[i]]
        == e.plastics[e.microplastics[i]].(size := NewSize(e.plastics[e.microplastics[i]], e.arena, adjDegradation))
    {
      DegradeEachSize(e, [], e.microplastics, adjDegradation, e.microplastics[i]);
    }
  }

  /** `degrade_plastics`, removal: the new live list is the old one filtered to
      the particles whose new size is above the removal threshold, in order. */
  lemma {:induction false} DegradeKeepsLarge(e: Ecosystem, adjDegradation: real)
    requires WellFormed(e) && NoDup(e.microplastics)
    ensures Degrade(e, adjDegradation).microplastics == KeepLarge(e.microplastics, Degrade(e, adjDegradation).plastics)
  {
    StartPass(e);
    DegradeEachLive(e, [], e.microplastics, adjDegradation);
  }

  /** `degrade_plastics`, release: every occupant of a removed colonized
      particle ends free-floating and attached to nothing. */
  lemma {:induction false} DegradeReleasesOccupants(e: Ecosystem, adjDegradation: real, i: nat, k: nat)
    requires WellFormed(e) && NoDup(e.microplastics)
    requires i < |e.microplastics|
    requires Degrade(e, adjDegradation).plastics[e.microplastics[i]].size <= MinDegradableSize
    requires e.plastics[e.microplastics[i]].isColonized
    requires k < |e.plastics[e.microplastics[i]].organisms|
    ensures e.plastics[e.microplastics[i]].organisms[k] < |e.arena|
    ensures
      var b := e.plastics[e.microplastics[i]].organisms[k];
      var a := Degrade(e, adjDegradation).arena[b];
      !a.isColonizing && a.plasticAttached == None
  {
    var r := Degrade(e, adjDegradation);
    var p := e.microplastics[i];
    assert PlasticOk(e.plastics[p], |e.arena|);
    DegradeSizes(e, adjDegradation);
    DegradeReleases(e, adjDegradation);
    assert r.plastics[p].organisms == e.plastics[p].organisms && r.plastics[p].isColonized;
    ReleasedByContains(e.microplastics, r.plastics, i, e.plastics[p].organisms[k]);
  }

  /** In the calibrated temperature range a particle never grows: its new
      size is positive and at most the old one. */
  lemma {:induction false} DegradeNeverGrows(e: Ecosystem, adjDegradation: real)
    requires WellFormed(e) && NoDup(e.microplastics)
    requires 0.0 <= adjDegradation <= 0.15
    requires forall i :: 0 <= i < |e.microplastics| ==> e.plastics[e.microplastics[i]].size > 0.0
    ensures forall i :: 0 <= i < |e.microplastics| ==>
      0.0 < Degrade(e, adjDegradation).plastics[e.microplastics[i]].size <= e.plastics[e.microplastics[i]].size
  {
    DegradeSizes(e, adjDegradation);
    forall i | 0 <= i < |e.microplastics|
      ensures 0.0 < Degrade(e, adjDegradation).plastics[e.microplastics[i]].size <= e.plastics[e.microplastics[i]].size
    {
      var m := e.plastics[e.microplastics[i]];
      ShrunkNeverGrows(m.size, DegradeFactor(m.hydrolyzable, adjDegradation), m.organisms, e.arena);
    }
  }

  /** `degrade_plastics`, agents: exactly the occupants of the removed
      colonized particles are freed; every other agent is unchanged. */
  lemma {:induction false} DegradeReleases(e: Ecosystem, adjDegradation: real)
    requires WellFormed(e) && NoDup(e.microplastics)
    ensures
      var r := Degrade(e, adjDegradation);
      forall b :: 0 <= b < |e.arena| ==>
        r.arena[b] == if b in ReleasedBy(e.microplastics, r.plastics) then Freed(e.arena[b]) else e.arena[b]
  {
    StartPass(e);
    DegradeEachReleases(e, [], e.microplastics, adjDegradation);
  }

  /** A released agent occupied, before the pass, a live particle the pass
      removed. */
  lemma {:induction false} ReleasedFromEroded(e: Ecosystem, adjDegradation: real, b: AgentId)
    requires WellFormed(e) && NoDup(e.microplastics)
    requires b in ReleasedBy(e.microplastics, Degrade(e, adjDegradation).plastics)
    ensures exists i ::
              && 0 <= i < |e.microplastics|
              && Degrade(e, adjDegradation).plastics[e.microplastics[i]].size <= MinDegradableSize
              && b in e.plastics[e.microplastics[i]].organisms
  {
    var r := Degrade(e, adjDegradation);
    ReleasedByWitness(e.microplastics, r.plastics, b);
    var i :| 0 <= i < |e.microplastics| && r.plastics[e.microplastics[i]].size <= MinDegradableSize
             && b in r.plastics[e.microplastics[i]].organisms;
    DegradeSizes(e, adjDegradation);
    assert r.plastics[e.microplastics[i]].organisms == e.plastics[e.microplastics[i]].organisms;
  }

  /** An occupant of a particle that survives the pass is not released: it
      is attached to that particle, so it occupies no removed one. */
  lemma {:induction false} DegradeKeepsOccupant(e: Ecosystem, adjDegradation: real, i: nat, b: AgentId)
    requires Inv(e) && i < |e.microplastics|
    requires Degrade(e, adjDegradation).plastics[e.microplastics[i]].size > MinDegradableSize
    requires b in e.plastics[e.microplastics[i]].organisms
    ensures b < |e.arena|
    ensures Degrade(e, adjDegradation).arena[b] == e.arena[b]
  {
    var r := Degrade(e, adjDegradation);
    var q := e.microplastics[i];
    assert LinkedAt(e, q);
    assert PlasticOk(e.plastics[q], |e.arena|);
    DegradeReleases(e, adjDegradation);
    if b in ReleasedBy(e.microplastics, r.plastics) {
      ReleasedFromEroded(e, adjDegradation, b);
      assert false;
    }
  }

  lemma {:induction false} DegradeLinkedAt(e: Ecosystem, adjDegradation: real, i: nat)
    requires Inv(e) && i < |e.microplastics|
    requires Degrade(e, adjDegradation).plastics[e.microplastics[i]].size > MinDegradableSize
    ensures e.microplastics[i] < |Degrade(e, adjDegradation).plastics|
    ensures LinkedAt(Degrade(e, adjDegradation), e.microplastics[i])
    ensures BoundedAt(Degrade(e, adjDegradation).plastics[e.microplastics[i]])
  {
    var r := Degrade(e, adjDegradation);
    var q := e.microplastics[i];
    DegradeSizes(e, adjDegradation);
    assert LinkedAt(e, q) && BoundedAt(e.plastics[q]);
    var occ := e.plastics[q].organisms;
    forall k | 0 <= k < |occ| ensures r.arena[occ[k]] == e.arena[occ[k]] {
      DegradeKeepsOccupant(e, adjDegradation, i, occ[k]);
    }
  }

  lemma {:induction false} DegradePreservesInv(e: Ecosystem, adjDegradation: real)
    requires Inv(e)
    ensures Inv(Degrade(e, adjDegradation))
  {
    var r := Degrade(e, adjDegradation);
    DegradeKeepsLarge(e, adjDegradation);
    KeepLargeSound(e.microplastics, r.plastics);
    KeepLargeNoDup(e.microplastics, r.plastics);
    forall j | 0 <= j < |r.microplastics|
      ensures LinkedAt(r, r.microplastics[j]) && BoundedAt(r.plastics[r.microplastics[j]])
    {
      var q := r.microplastics[j];
      assert q in e.microplastics;
      var i :| 0 <= i < |e.microplastics| && e.microplastics[i] == q;
      DegradeLinkedAt(e, adjDegradation, i);
    }
  }

  /** `degrade_plastics` keeps every colonizing agent listed: an agent still
      colonizing after the pass was not released, so its particle was not
      removed (a removed colonized particle releases all its occupants), and
      the pass changes no occupant list. */
  lemma {:induction false} DegradeKeepsListed(e: Ecosystem, adjDegradation: real)
    requires Inv(e) && Listed(e)
    ensures Listed(Degrade(e, adjDegradation))
  {
    var r := Degrade(e, adjDegradation);
    DegradeReleases(e, adjDegradation);
    DegradeSizes(e, adjDegradation);
    DegradeKeepsLarge(e, adjDegradation);
    KeepLargeComplete(e.microplastics, r.plastics);
    forall b | 0 <= b < |r.arena| && r.arena[b].isColonizing ensures ListedAt(r, b) {
      assert b !in ReleasedBy(e.microplastics, r.plastics);
      assert r.arena[b] == e.arena[b];
      assert ListedAt(e, b);
      var q := e.arena[b].plasticAttached.value;
      var i :| 0 <= i < |e.microplastics| && e.microplastics[i] == q;
      assert LinkedAt(e, q);
      assert r.plastics[q].organisms == e.plastics[q].organisms;
      assert r.plastics[q].isColonized;
      if r.plastics[q].size <= MinDegradableSize {
        ReleasedByContains(e.microplastics, r.plastics, i, b);
        assert false;
      }
    }
  }

  lemma {:induction false} NoDupSuffix<T>(pre: seq<T>, snap: seq<T>)
    requires NoDup(pre + snap)
    ensures NoDup(snap)
    ensures forall i, j :: 0 <= i < |pre| && 0 <= j < |snap| ==> pre[i] != snap[j]
  {
    forall i, j | 0 <= i < j < |snap| ensures snap[i] != snap[j] {
      assert snap[i] == (pre + snap)[|pre| + i] && snap[j] == (pre + snap)[|pre| + j];
    }
    forall i, j | 0 <= i < |pre| && 0 <= j < |snap| ensures pre[i] != snap[j] {
      assert pre[i] == (pre + snap)[i] && snap[j] == (pre + snap)[|pre| + j];
    }
  }
}
