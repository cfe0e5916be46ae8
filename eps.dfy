/** EPS dynamics: gated production by attached agents, and the dispersion of
    at most one occupant per tick once a particle reaches the dispersion
    threshold. */
module Eps {
  import opened Entities

  /** `produce_eps` for one agent: only the particle the agent is attached to
      can change, only its EPS, and only while the agent is colonizing and
      the EPS is below the dispersion threshold; then it grows by exactly the
      agent's rate. */
  function Produced(plastics: seq<Microplastic>, ag: Agent): (r: seq<Microplastic>)
    requires AgentOk(ag, |plastics|)
    ensures |r| == |plastics|
    ensures forall q :: 0 <= q < |r| && ag.plasticAttached != Some(q) ==> r[q] == plastics[q]
    ensures ag.isColonizing ==>
      var p := ag.plasticAttached.value;
      && r[p].epsConcentration ==
           (if plastics[p].epsConcentration < EpsDispersionThreshold
            then plastics[p].epsConcentration + ag.epsProductionRate
            else plastics[p].epsConcentration)
      && r[p] == plastics[p].(epsConcentration := r[p].epsConcentration)
    ensures !ag.isColonizing ==> r == plastics
  {
    if ag.isColonizing && plastics[ag.plasticAttached.value].epsConcentration < EpsDispersionThreshold then
      var p := ag.plasticAttached.value;
      plastics[p := plastics[p].(epsConcentration := plastics[p].epsConcentration + ag.epsProductionRate)]
    else plastics
  }

  /** Production keeps every record consistent with the arenas. */
  lemma {:induction false} ProducedKeepsArenas(plastics: seq<Microplastic>, arena: seq<Agent>, ag: Agent)
    requires ArenasOk(arena, plastics) && AgentOk(ag, |plastics|)
    ensures ArenasOk(arena, Produced(plastics, ag))
  {
    var next := Produced(plastics, ag);
    forall q | 0 <= q < |next| ensures PlasticOk(next[q], |arena|) {
      assert PlasticOk(plastics[q], |arena|);
    }
  }

  /** `plastics` and `r` differ at most in EPS concentrations. */
  predicate OnlyEpsChanged(plastics: seq<Microplastic>, r: seq<Microplastic>)
  {
    && |r| == |plastics|
    && forall q :: 0 <= q < |r| ==> r[q] == plastics[q].(epsConcentration := r[q].epsConcentration)
  }

  /** Production by the occupants `occ` of one particle, in occupant order. */
  function ProduceAll(plastics: seq<Microplastic>, arena: seq<Agent>, occ: seq<AgentId>): (r: seq<Microplastic>)
    requires ArenasOk(arena, plastics) && Below(occ, |arena|)
    ensures OnlyEpsChanged(plastics, r)
    decreases |occ|
  {
    if occ == [] then plastics
    else
      var next := Produced(plastics, arena[occ[0]]);
      assert ArenasOk(arena, next) by {
        forall q | 0 <= q < |next| ensures PlasticOk(next[q], |arena|) {
          assert PlasticOk(plastics[q], |arena|);
        }
      }
      ProduceAll(next, arena, occ[1..])
  }

  /** One step of production by a particle's occupants. */
  lemma {:induction false} ProduceAllStep(plastics: seq<Microplastic>, arena: seq<Agent>, occ: seq<AgentId>)
    requires ArenasOk(arena, plastics) && Below(occ, |arena|) && occ != []
    ensures Below(occ[1..], |arena|) && ArenasOk(arena, Produced(plastics, arena[occ[0]]))
    ensures ProduceAll(plastics, arena, occ) == ProduceAll(Produced(plastics, arena[occ[0]]), arena, occ[1..])
  {
    assert AgentOk(arena[occ[0]], |plastics|);
    ProducedKeepsArenas(plastics, arena, arena[occ[0]]);
  }

  /** The production phase of a tick: every occupant of every live particle,
      particles in list order. */
  function ProductionPhase(plastics: seq<Microplastic>, arena: seq<Agent>, live: seq<PlasticId>): (r: seq<Microplastic>)
    requires ArenasOk(arena, plastics) && Below(live, |plastics|)
    ensures OnlyEpsChanged(plastics, r)
    decreases |live|
  {
    if live == [] then plastics
    else
      assert PlasticOk(plastics[live[0]], |arena|);
      var next := ProduceAll(plastics, arena, plastics[live[0]].organisms);
      assert ArenasOk(arena, next) by {
        forall q | 0 <= q < |next| ensures PlasticOk(next[q], |arena|) {
          assert PlasticOk(plastics[q], |arena|);
        }
      }
      ProductionPhase(next, arena, live[1..])
  }

  /** One step of the production phase: the first live particle's occupants. */
  lemma {:induction false} ProductionPhaseStep(plastics: seq<Microplastic>, arena: seq<Agent>, live: seq<PlasticId>)
    requires ArenasOk(arena, plastics) && Below(live, |plastics|) && live != []
    ensures Below(live[1..], |plastics|) && live[0] < |plastics| && Below(plastics[live[0]].organisms, |arena|)
    ensures ArenasOk(arena, ProduceAll(plastics, arena, plastics[live[0]].organisms))
    ensures ProductionPhase(plastics, arena, live)
         == ProductionPhase(ProduceAll(plastics, arena, plastics[live[0]].organisms), arena, live[1..])
  {
    assert PlasticOk(plastics[live[0]], |arena|);
    var next := ProduceAll(plastics, arena, plastics[live[0]].organisms);
    forall q | 0 <= q < |next| ensures PlasticOk(next[q], |arena|) {
      assert PlasticOk(plastics[q], |arena|);
    }
  }

  function Produce(e: Ecosystem): (r: Ecosystem)
    requires WellFormed(e)
    ensures r.arena == e.arena && r.agents == e.agents && r.microplastics == e.microplastics
    ensures OnlyEpsChanged(e.plastics, r.plastics)
  {
    e.(plastics := ProductionPhase(e.plastics, e.arena, e.microplastics))
  }

  /** The EPS a particle reaches when its occupants `occ` produce in order,
      each gated by the dispersion threshold. */
  function Accumulated(eps: real, occ: seq<AgentId>, arena: seq<Agent>): (r: real)
    requires Below(occ, |arena|)
    ensures eps >= EpsDispersionThreshold ==> r == eps
    decreases |occ|
  {
    if occ == [] then eps
    else
      var gated := if eps < EpsDispersionThreshold then eps + arena[occ[0]].epsProductionRate else eps;
      Accumulated(gated, occ[1..], arena)
  }

  /** Sum of the occupants' production rates. */
  function RateSum(occ: seq<AgentId>, arena: seq<Agent>): real
    requires Below(occ, |arena|)
    decreases |occ|
  {
    if occ == [] then 0.0 else arena[occ[0]].epsProductionRate + RateSum(occ[1..], arena)
  }

  predicate RatesMapped(arena: seq<Agent>)
  {
    forall k :: 0 <= k < |arena| ==> arena[k].epsProductionRate == EpsRate(arena[k].organismType)
  }

  /** Production never lowers EPS, never moves it once it reached the
      threshold, and keeps a concentration below 20.5 below 20.5. */
  lemma {:induction false} AccumulatedBounds(eps: real, occ: seq<AgentId>, arena: seq<Agent>)
    requires Below(occ, |arena|) && RatesMapped(arena)
    ensures eps <= Accumulated(eps, occ, arena)
    ensures eps < EpsDispersionThreshold + MaxEpsRate ==>
              Accumulated(eps, occ, arena) < EpsDispersionThreshold + MaxEpsRate
    decreases |occ|
  {
    if occ != [] {
      var ag := arena[occ[0]];
      assert ag.epsProductionRate == EpsRate(ag.organismType);
      var gated := if eps < EpsDispersionThreshold then eps + ag.epsProductionRate else eps;
      AccumulatedBounds(gated, occ[1..], arena);
    }
  }

  /** While the total stays below the threshold no production is gated:
      every occupant adds exactly its rate. */
  lemma {:induction false} AccumulatedUngated(eps: real, occ: seq<AgentId>, arena: seq<Agent>)
    requires Below(occ, |arena|) && RatesMapped(arena)
    requires eps + RateSum(occ, arena) < EpsDispersionThreshold
    ensures Accumulated(eps, occ, arena) == eps + RateSum(occ, arena)
    decreases |occ|
  {
    if occ != [] {
      var rate := arena[occ[0]].epsProductionRate;
      assert rate == EpsRate(arena[occ[0]].organismType);
      RateSumNonNegative(occ[1..], arena);
      AccumulatedUngated(eps + rate, occ[1..], arena);
    }
  }

  lemma {:induction false} RateSumNonNegative(occ: seq<AgentId>, arena: seq<Agent>)
    requires Below(occ, |arena|) && RatesMapped(arena)
    ensures RateSum(occ, arena) >= 0.0
    decreases |occ|
  {
    if occ != [] {
      assert arena[occ[0]].epsProductionRate == EpsRate(arena[occ[0]].organismType);
      RateSumNonNegative(occ[1..], arena);
    }
  }

  /** Production by an agent colonizing `p`: the gated increase of `p`'s EPS. */
  lemma {:induction false} ProducedAt(plastics: seq<Microplastic>, ag: Agent, p: PlasticId)
    requires AgentOk(ag, |plastics|) && ag.isColonizing && ag.plasticAttached == Some(p)
    ensures
      var eps := plastics[p].epsConcentration;
      Produced(plastics, ag)
        == plastics[p := plastics[p].(epsConcentration :=
             if eps < EpsDispersionThreshold then eps + ag.epsProductionRate else eps)]
  {
  }

  /** Occupants that are all attached to `p` only ever feed `p`. */
  lemma {:induction false} ProduceAllOwnParticle(plastics: seq<Microplastic>, arena: seq<Agent>, occ: seq<AgentId>, p: PlasticId)
    requires ArenasOk(arena, plastics) && Below(occ, |arena|) && p < |plastics|
    requires forall k :: 0 <= k < |occ| ==> arena[occ[k]].isColonizing && arena[occ[k]].plasticAttached == Some(p)
    ensures ProduceAll(plastics, arena, occ) ==
              plastics[p := plastics[p].(epsConcentration := Accumulated(plastics[p].epsConcentration, occ, arena))]
    decreases |occ|
  {
    if occ != [] {
      var ag := arena[occ[0]];
      ProducedKeepsArenas(plastics, arena, ag);
      var next := Produced(plastics, ag);
      ProduceAllOwnParticle(next, arena, occ[1..], p);
      var eps := plastics[p].epsConcentration;
      var gated := if eps < EpsDispersionThreshold then eps + ag.epsProductionRate else eps;
      ProducedAt(plastics, ag, p);
      assert Accumulated(eps, occ, arena) == Accumulated(gated, occ[1..], arena);
      assert ProduceAll(plastics, arena, occ) == ProduceAll(next, arena, occ[1..]);
      UpdateTwice(plastics, p, plastics[p].(epsConcentration := gated),
                  plastics[p].(epsConcentration := Accumulated(gated, occ[1..], arena)));
    }
  }

  /** Every occupant of every particle in `live` is colonizing and attached
      to that particle. */
  predicate OccupantsAttached(plastics: seq<Microplastic>, arena: seq<Agent>, live: seq<PlasticId>)
    requires ArenasOk(arena, plastics) && Below(live, |plastics|)
  {
    forall i :: 0 <= i < |live| ==>
      var occ := plastics[live[i]].organisms;
      PlasticOk(plastics[live[i]], |arena|) &&
      forall k :: 0 <= k < |occ| ==>
        arena[occ[k]].isColonizing && arena[occ[k]].plasticAttached == Some(live[i])
  }

  /** With attachment links in place, the production phase gives each live
      particle the gated sum of its own occupants' rates and leaves every other
      particle alone. */
  lemma {:induction false} ProductionPhaseLinked(plastics: seq<Microplastic>, arena: seq<Agent>, live: seq<PlasticId>)
    requires ArenasOk(arena, plastics) && Below(live, |plastics|) && NoDup(live)
    requires OccupantsAttached(plastics, arena, live)
    ensures var r := ProductionPhase(plastics, arena, live);
      forall q :: 0 <= q < |plastics| ==>
        r[q] == if q in live
                then plastics[q].(epsConcentration :=
                       Accumulated(plastics[q].epsConcentration, plastics[q].organisms, arena))
                else plastics[q]
    decreases |live|
  {
    if live != [] {
      var p := live[0];
      assert PlasticOk(plastics[p], |arena|);
      var next := ProduceAll(plastics, arena, plastics[p].organisms);
      ProduceAllOwnParticle(plastics, arena, plastics[p].organisms, p);
      assert ArenasOk(arena, next) by {
        forall q | 0 <= q < |next| ensures PlasticOk(next[q], |arena|) {
          assert PlasticOk(plastics[q], |arena|);
        }
      }
      assert NoDup(live[1..]);
      assert p !in live[1..];
      assert OccupantsAttached(next, arena, live[1..]) by {
        forall i | 0 <= i < |live[1..]| ensures next[live[1..][i]] == plastics[live[i + 1]] {
          assert live[1..][i] == live[i + 1] != p;
        }
      }
      ProductionPhaseLinked(next, arena, live[1..]);
    }
  }

  lemma {:induction false} ProducePreservesInv(e: Ecosystem)
    requires Inv(e)
    ensures WellFormed(e) && Inv(Produce(e))
  {
    var r := Produce(e);
    assert OccupantsAttached(e.plastics, e.arena, e.microplastics) by {
      forall i | 0 <= i < |e.microplastics|
        ensures PlasticOk(e.plastics[e.microplastics[i]], |e.arena|) && LinkedAt(e, e.microplastics[i])
      {
        assert LinkedAt(e, e.microplastics[i]);
        assert PlasticOk(e.plastics[e.microplastics[i]], |e.arena|);
      }
    }
    ProductionPhaseLinked(e.plastics, e.arena, e.microplastics);
    assert RatesMapped(e.arena) by {
      forall k | 0 <= k < |e.arena| ensures AgentOk(e.arena[k], |e.plastics|) {
        assert AgentOk(e.arena[k], |e.plastics|);
      }
    }
    assert ArenasOk(r.arena, r.plastics) by {
      forall q | 0 <= q < |r.plastics| ensures PlasticOk(r.plastics[q], |r.arena|) {
        assert PlasticOk(e.plastics[q], |e.arena|);
      }
      forall k | 0 <= k < |r.arena| ensures AgentOk(r.arena[k], |r.plastics|) {
        assert AgentOk(e.arena[k], |e.plastics|);
      }
    }
    forall i | 0 <= i < |r.microplastics|
      ensures LinkedAt(r, r.microplastics[i]) && BoundedAt(r.plastics[r.microplastics[i]])
    {
      var p := e.microplastics[i];
      assert LinkedAt(e, p) && BoundedAt(e.plastics[p]) && PlasticOk(e.plastics[p], |e.arena|);
      AccumulatedBounds(e.plastics[p].epsConcentration, e.plastics[p].organisms, e.arena);
    }
  }

  /** A particle ready to release an occupant. */
  predicate Ready(m: Microplastic)
  {
    m.epsConcentration >= EpsDispersionThreshold && m.organisms != []
  }

  /** The dispersion scan: the position, in list order, of the first ready
      particle. */
  function FirstReady(live: seq<PlasticId>, plastics: seq<Microplastic>): (r: Option<nat>)
    requires Below(live, |plastics|)
    ensures r.Some? ==> r.value < |live| && Ready(plastics[live[r.value]])
    ensures r.Some? ==> forall i :: 0 <= i < r.value ==> !Ready(plastics[live[i]])
    ensures r.None? <==> forall i :: 0 <= i < |live| ==> !Ready(plastics[live[i]])
    decreases |live|
  {
    if live == [] then None
    else if Ready(plastics[live[0]]) then Some(0)
    else
      var rest := FirstReady(live[1..], plastics);
      assert forall i :: 1 <= i < |live| ==> live[i] == live[1..][i - 1];
      match rest
      case None => None
      case Some(i) => Some(i + 1)
  }

  /** `dispersion_based_on_eps`. */
  function Dispersed(e: Ecosystem): (r: Ecosystem)
    requires WellFormed(e)
    ensures WellFormed(r)
    ensures r.agents == e.agents && r.microplastics == e.microplastics
  {
    match FirstReady(e.microplastics, e.plastics)
    case None => e
    case Some(i) =>
      var p := e.microplastics[i];
      var m := e.plastics[p];
      assert PlasticOk(m, |e.arena|);
      var a := m.organisms[|m.organisms| - 1];
      var rest := m.organisms[..|m.organisms| - 1];
      var m' := if rest == [] then m.(organisms := rest, isColonized := false, epsConcentration := 0.0)
                else m.(organisms := rest);
      assert AgentOk(e.arena[a], |e.plastics|);
      var r := e.(plastics := e.plastics[p := m'], arena := e.arena[a := e.arena[a].(isColonizing := false)]);
      assert ArenasOk(r.arena, r.plastics) by {
        forall q | 0 <= q < |r.plastics| ensures PlasticOk(r.plastics[q], |r.arena|) {
          assert PlasticOk(e.plastics[q], |e.arena|);
        }
        forall k | 0 <= k < |r.arena| ensures AgentOk(r.arena[k], |r.plastics|) {
          assert AgentOk(e.arena[k], |e.plastics|);
        }
      }
      r
  }

  /** The first ready particle in list order loses exactly its last occupant,
      which stops colonizing; an emptied particle restarts with no EPS and is
      no longer colonized; every other particle and every other agent is
      unchanged. */
  lemma {:induction false} DispersionPopsLastOfFirstReady(e: Ecosystem, i: nat)
    requires WellFormed(e)
    requires i < |e.microplastics| && Ready(e.plastics[e.microplastics[i]])
    requires forall j :: 0 <= j < i ==> !Ready(e.plastics[e.microplastics[j]])
    ensures
      var r := Dispersed(e);
      var p := e.microplastics[i];
      var occ := e.plastics[p].organisms;
      var a := occ[|occ| - 1];
      && r.plastics[p].organisms == occ[..|occ| - 1]
      && r.arena[a] == e.arena[a].(isColonizing := false)
      && (|occ| == 1 ==> r.plastics[p] == e.plastics[p].(organisms := [], isColonized := false, epsConcentration := 0.0))
      && (|occ| > 1 ==> r.plastics[p] == e.plastics[p].(organisms := occ[..|occ| - 1]))
      && |r.plastics| == |e.plastics| && |r.arena| == |e.arena|
      && (forall q :: 0 <= q < |e.plastics| && q != p ==> r.plastics[q] == e.plastics[q])
      && (forall b :: 0 <= b < |e.arena| && b != a ==> r.arena[b] == e.arena[b])
  {
  }

  /** Without a ready particle nothing changes. */
  lemma {:induction false} DispersionIdleWhenNoneReady(e: Ecosystem)
    requires WellFormed(e)
    requires forall i :: 0 <= i < |e.microplastics| ==> !Ready(e.plastics[e.microplastics[i]])
    ensures Dispersed(e) == e
  {
  }

  lemma {:induction false} DispersionPreservesInv(e: Ecosystem)
    requires Inv(e)
    ensures Inv(Dispersed(e))
  {
    var r := Dispersed(e);
    match FirstReady(e.microplastics, e.plastics)
    case None =>
    case Some(i) =>
      var p := e.microplastics[i];
      var occ := e.plastics[p].organisms;
      var a := occ[|occ| - 1];
      assert LinkedAt(e, p);
      assert e.arena[a].plasticAttached == Some(p);
      NoDupPrefix(occ, |occ| - 1);
      forall j | 0 <= j < |r.microplastics| ensures LinkedAt(r, r.microplastics[j]) && BoundedAt(r.plastics[r.microplastics[j]]) {
        var q := e.microplastics[j];
        assert LinkedAt(e, q) && BoundedAt(e.plastics[q]);
        var occq := e.plastics[q].organisms;
        if q != p {
          assert forall k :: 0 <= k < |occq| ==> occq[k] != a;
        } else {
          assert forall k :: 0 <= k < |occ| - 1 ==> occ[k] != a;
        }
      }
  }

  /** Production changes EPS only, so no attachment changes. */
  lemma {:induction false} ProduceKeepsListed(e: Ecosystem)
    requires WellFormed(e) && Listed(e)
    ensures Listed(Produce(e))
  {
    var r := Produce(e);
    forall b | 0 <= b < |r.arena| ensures ListedAt(r, b) {
      assert ListedAt(e, b);
      if e.arena[b].isColonizing {
        var q := e.arena[b].plasticAttached.value;
        assert r.plastics[q].organisms == e.plastics[q].organisms;
      }
    }
  }

  /** Dispersion keeps every colonizing agent listed: the one occupant it
      pops stops colonizing, and every other occupant of that particle stays
      in the shortened list. */
  lemma {:induction false} DispersionKeepsListed(e: Ecosystem)
    requires WellFormed(e) && Listed(e)
    ensures Listed(Dispersed(e))
  {
    var r := Dispersed(e);
    match FirstReady(e.microplastics, e.plastics)
    case None =>
    case Some(i) =>
      DispersionPopsLastOfFirstReady(e, i);
      var p := e.microplastics[i];
      var occ := e.plastics[p].organisms;
      var a := occ[|occ| - 1];
      forall b | 0 <= b < |r.arena| && b != a ensures ListedAt(r, b) {
        assert ListedAt(e, b);
        if e.arena[b].isColonizing && e.arena[b].plasticAttached == Some(p) {
          var k :| 0 <= k < |occ| && occ[k] == b;
          assert k < |occ| - 1 && r.plastics[p].organisms[k] == b;
        }
      }
  }
}
