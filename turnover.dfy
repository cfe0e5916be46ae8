/** Population turnover: death of agents and introduction of new agents and
    particles, with the capacity caps. */
module Turnover {
  import opened Entities

  /** The draws that create one agent: its type and its position. */
  datatype AgentDraw = AgentDraw(organismType: OrganismType, x: real, y: real)

  /** The draws that create one particle: its plastic type and its position. */
  datatype PlasticDraw = PlasticDraw(plasticType: PlasticType, x: real, y: real)

  /** Does an agent die on a draw from [0, 1)?  Colonizing agents are
      protected by the lower attached death rate. */
  predicate Dies(a: Agent, draw: real, adjDeathRate: real)
    ensures draw < AttachedDeathRate + adjDeathRate ==> Dies(a, draw, adjDeathRate)
    ensures Dies(a, draw, adjDeathRate) ==> draw < DeathRate + adjDeathRate
  {
    if !a.isColonizing then draw < DeathRate + adjDeathRate
    else draw < AttachedDeathRate + adjDeathRate
  }

  /** The live agent list after `death_process`.  The original removes dying
      agents from the list it is iterating over, so the agent right after a
      dying one moves into the visited slot and is passed over without a
      draw; `draws[v]` is the draw of the v-th visited agent. */
  function Survivors(s: seq<AgentId>, draws: seq<real>, arena: seq<Agent>, adjDeathRate: real): (r: seq<AgentId>)
    requires Below(s, |arena|)
    requires |draws| >= |s|
    ensures |r| <= |s|
    decreases |s|
  {
    if s == [] then []
    else if Dies(arena[s[0]], draws[0], adjDeathRate) then
      if |s| == 1 then [] else [s[1]] + Survivors(s[2..], draws[1..], arena, adjDeathRate)
    else [s[0]] + Survivors(s[1..], draws[1..], arena, adjDeathRate)
  }

  /** Death only removes: every survivor was live before, and a list without
      repeats stays without repeats. */
  lemma {:induction false} SurvivorsSubset(s: seq<AgentId>, draws: seq<real>, arena: seq<Agent>, adjDeathRate: real)
    requires Below(s, |arena|) && |draws| >= |s|
    ensures var r := Survivors(s, draws, arena, adjDeathRate);
      && (forall k :: 0 <= k < |r| ==> r[k] in s)
      && Below(r, |arena|)
      && (NoDup(s) ==> NoDup(r))
    decreases |s|
  {
    if s != [] {
      var r := Survivors(s, draws, arena, adjDeathRate);
      var skip := if Dies(arena[s[0]], draws[0], adjDeathRate) then 2 else 1;
      if skip <= |s| {
        var head := s[skip - 1];
        var tail := s[skip..];
        SurvivorsSubset(tail, draws[1..], arena, adjDeathRate);
        var rest := Survivors(tail, draws[1..], arena, adjDeathRate);
        assert r == [head] + rest;
        assert forall k :: 0 <= k < |rest| ==> rest[k] in s;
        if NoDup(s) {
          assert head !in tail;
          assert NoDup(tail);
          NoDupPrepend(head, rest);
        }
      }
    }
  }

  /** The removal-while-iterating skip: of two neighbours in the list, at
      least one survives the death pass. */
  lemma {:induction false} DeathSparesNeighbour(s: seq<AgentId>, draws: seq<real>, arena: seq<Agent>, adjDeathRate: real, i: nat)
    requires Below(s, |arena|) && |draws| >= |s|
    requires i + 1 < |s|
    ensures s[i] in Survivors(s, draws, arena, adjDeathRate) || s[i + 1] in Survivors(s, draws, arena, adjDeathRate)
    decreases |s|
  {
    var r := Survivors(s, draws, arena, adjDeathRate);
    if Dies(arena[s[0]], draws[0], adjDeathRate) {
      assert r == [s[1]] + Survivors(s[2..], draws[1..], arena, adjDeathRate);
      if i >= 2 {
        DeathSparesNeighbour(s[2..], draws[1..], arena, adjDeathRate, i - 2);
        assert s[2..][i - 2] == s[i] && s[2..][i - 1] == s[i + 1];
      }
    } else {
      assert r == [s[0]] + Survivors(s[1..], draws[1..], arena, adjDeathRate);
      if i >= 1 {
        DeathSparesNeighbour(s[1..], draws[1..], arena, adjDeathRate, i - 1);
        assert s[1..][i - 1] == s[i] && s[1..][i] == s[i + 1];
      }
    }
  }

  /** When no visit draws a death, the list is unchanged. */
  lemma {:induction false} NoDeathKeepsAll(s: seq<AgentId>, draws: seq<real>, arena: seq<Agent>, adjDeathRate: real)
    requires Below(s, |arena|) && |draws| >= |s|
    requires forall k :: 0 <= k < |s| ==> !Dies(arena[s[k]], draws[k], adjDeathRate)
    ensures Survivors(s, draws, arena, adjDeathRate) == s
    decreases |s|
  {
    if s != [] {
      assert !Dies(arena[s[0]], draws[0], adjDeathRate);
      assert forall k :: 0 <= k < |s| - 1 ==> s[1..][k] == s[k + 1] && draws[1..][k] == draws[k + 1];
      NoDeathKeepsAll(s[1..], draws[1..], arena, adjDeathRate);
    }
  }

  /** The first visited agent dies exactly when its draw says so. */
  lemma {:induction false} FirstVisitedDiesOnItsDraw(s: seq<AgentId>, draws: seq<real>, arena: seq<Agent>, adjDeathRate: real)
    requires Below(s, |arena|) && |draws| >= |s| && NoDup(s) && s != []
    ensures s[0] !in Survivors(s, draws, arena, adjDeathRate) <==> Dies(arena[s[0]], draws[0], adjDeathRate)
  {
    var r := Survivors(s, draws, arena, adjDeathRate);
    if Dies(arena[s[0]], draws[0], adjDeathRate) {
      if |s| > 1 {
        var rest := Survivors(s[2..], draws[1..], arena, adjDeathRate);
        SurvivorsSubset(s[2..], draws[1..], arena, adjDeathRate);
        assert s[0] !in s[2..];
        assert forall k :: 0 <= k < |rest| ==> rest[k] in s[2..];
        assert s[1] != s[0];
        assert r == [s[1]] + rest;
      }
    } else {
      assert r[0] == s[0];
    }
  }

  lemma {:induction false} DeathPreservesInv(e: Ecosystem, draws: seq<real>, adjDeathRate: real)
    requires Inv(e) && |draws| >= |e.agents|
    ensures Inv(e.(agents := Survivors(e.agents, draws, e.arena, adjDeathRate)))
  {
    var e' := e.(agents := Survivors(e.agents, draws, e.arena, adjDeathRate));
    SurvivorsSubset(e.agents, draws, e.arena, adjDeathRate);
    assert forall p :: 0 <= p < |e.plastics| ==> LinkedAt(e', p) == LinkedAt(e, p);
  }

  /** A visit that draws no death: the agent stays at position `i` and the
      rest of the list is still to visit. */
  lemma {:induction false} DeathVisitSpares(s: seq<AgentId>, i: nat, draws: seq<real>, arena: seq<Agent>, adjDeathRate: real)
    requires Below(s, |arena|) && i < |s| && |draws| >= |s|
    requires !Dies(arena[s[i]], draws[i], adjDeathRate)
    ensures s[..i + 1] + Survivors(s[i + 1..], draws[i + 1..], arena, adjDeathRate)
         == s[..i] + Survivors(s[i..], draws[i..], arena, adjDeathRate)
  {
    var t := s[i..];
    assert t[0] == s[i] && draws[i..][0] == draws[i];
    assert draws[i..][1..] == draws[i + 1..] && t[1..] == s[i + 1..];
    assert Survivors(t, draws[i..], arena, adjDeathRate) == [t[0]] + Survivors(t[1..], draws[i..][1..], arena, adjDeathRate);
    assert s[..i + 1] == s[..i] + [t[0]];
  }

  /** A visit that draws a death: the agent at position `i` leaves, its
      successor slides into position `i` and is passed over, and what is left
      to visit still yields the same final list. */
  lemma {:induction false} DeathVisitRemoves(s: seq<AgentId>, i: nat, draws: seq<real>, arena: seq<Agent>, adjDeathRate: real)
    requires Below(s, |arena|) && i < |s| && |draws| >= |s|
    requires Dies(arena[s[i]], draws[i], adjDeathRate)
    ensures Below(s[..i] + s[i + 1..], |arena|)
    ensures
      var s' := s[..i] + s[i + 1..];
      var goal := s[..i] + Survivors(s[i..], draws[i..], arena, adjDeathRate);
      && (i + 1 <= |s'| ==> s'[..i + 1] + Survivors(s'[i + 1..], draws[i + 1..], arena, adjDeathRate) == goal)
      && (i + 1 > |s'| ==> s' == goal)
  {
    BelowRemoveAt(s, i, |arena|);
    var s' := s[..i] + s[i + 1..];
    if i + 1 < |s| {
      var t := s[i..];
      assert t[2..] == s[i + 2..] && t[1] == s[i + 1] && draws[i..][1..] == draws[i + 1..];
      SurvivorsAfterDeath(t, draws[i..], arena, adjDeathRate);
      var rest := Survivors(s[i + 2..], draws[i + 1..], arena, adjDeathRate);
      assert Survivors(t, draws[i..], arena, adjDeathRate) == [s[i + 1]] + rest;
      assert s'[..i + 1] == s[..i] + [s[i + 1]];
      assert s'[i + 1..] == s[i + 2..];
      assert (s[..i] + [s[i + 1]]) + rest == s[..i] + ([s[i + 1]] + rest);
    } else {
      assert s' == s[..i];
      assert s[i..] == [s[i]];
    }
  }

  /** What `death_process` still has to do when it is about to visit
      position `i` of the list `s`: the visited prefix followed by the
      survivors of the rest is the final list. */
  predicate DeathPending(s: seq<AgentId>, i: nat, draws: seq<real>, arena: seq<Agent>, adjDeathRate: real, final: seq<AgentId>)
    requires Below(s, |arena|) && |draws| >= |s|
  {
    && (i <= |s| ==> s[..i] + Survivors(s[i..], draws[i..], arena, adjDeathRate) == final)
    && (i > |s| ==> s == final)
  }

  /** The live list after the visit of position `i`. */
  function AfterVisit(s: seq<AgentId>, i: nat, draws: seq<real>, arena: seq<Agent>, adjDeathRate: real): seq<AgentId>
    requires Below(s, |arena|) && i < |s| && |draws| >= |s|
  {
    if Dies(arena[s[i]], draws[i], adjDeathRate) then RemoveFirst(s, s[i]) else s
  }

  /** A visit keeps the list well formed and without repeats, and what is
      still to do after it is what was to do before it. */
  lemma {:induction false} DeathVisit(s: seq<AgentId>, i: nat, draws: seq<real>, arena: seq<Agent>, adjDeathRate: real, final: seq<AgentId>)
    requires Below(s, |arena|) && NoDup(s) && i < |s| && |draws| >= |s|
    requires DeathPending(s, i, draws, arena, adjDeathRate, final)
    ensures Below(AfterVisit(s, i, draws, arena, adjDeathRate), |arena|)
    ensures NoDup(AfterVisit(s, i, draws, arena, adjDeathRate))
    ensures |AfterVisit(s, i, draws, arena, adjDeathRate)| <= |s|
    ensures DeathPending(AfterVisit(s, i, draws, arena, adjDeathRate), i + 1, draws, arena, adjDeathRate, final)
  {
    if Dies(arena[s[i]], draws[i], adjDeathRate) {
      DeathVisitRemoves(s, i, draws, arena, adjDeathRate);
      NoDupRemoveAt(s, i);
    } else {
      DeathVisitSpares(s, i, draws, arena, adjDeathRate);
    }
  }

  lemma {:induction false} BelowRemoveAt(s: seq<nat>, i: nat, n: nat)
    requires Below(s, n) && i < |s|
    ensures Below(s[..i] + s[i + 1..], n)
  {
    var s' := s[..i] + s[i + 1..];
    forall k | 0 <= k < |s'| ensures s'[k] < n {
      if k < i { assert s'[k] == s[k]; } else { assert s'[k] == s[k + 1]; }
    }
  }

  /** The first visit draws a death and there is a successor: the successor
      is passed over. */
  lemma {:induction false} SurvivorsAfterDeath(t: seq<AgentId>, ds: seq<real>, arena: seq<Agent>, adjDeathRate: real)
    requires Below(t, |arena|) && |ds| >= |t| && |t| >= 2
    requires Dies(arena[t[0]], ds[0], adjDeathRate)
    ensures Survivors(t, ds, arena, adjDeathRate) == [t[1]] + Survivors(t[2..], ds[1..], arena, adjDeathRate)
  {
  }

  /** `introduce_new_agents`: below the cap and on a draw below the
      introduction rate, one free-floating agent is appended. */
  function IntroduceAgent(e: Ecosystem, gate: real, d: AgentDraw): (r: Ecosystem)
    ensures |r.agents| <= |e.agents| + 1
    ensures e.agents <= r.agents && e.arena <= r.arena
    ensures |e.agents| <= MaxAgents ==> |r.agents| <= MaxAgents
    ensures r.plastics == e.plastics && r.microplastics == e.microplastics
    ensures (|e.agents| < MaxAgents && gate < AgentIntroRate) <==> |r.agents| == |e.agents| + 1
    ensures |r.agents| == |e.agents| + 1 ==>
      && |r.arena| == |e.arena| + 1
      && r.agents[|e.agents|] == |e.arena|
      && var a := r.arena[|e.arena|];
      && !a.isColonizing && a.plasticAttached == None
      && a.organismType == d.organismType && a.epsProductionRate == EpsRate(d.organismType)
      && a.x == d.x && a.y == d.y
    ensures |r.agents| != |e.agents| + 1 ==> r == e
  {
    if |e.agents| < MaxAgents && gate < AgentIntroRate then
      e.(arena := e.arena + [NewAgent(d.organismType, d.x, d.y)], agents := e.agents + [|e.arena|])
    else e
  }

  /** `introduce_new_microplastics`: below the cap and on a draw below the
      introduction rate, one fresh particle is appended. */
  function IntroduceMicroplastic(e: Ecosystem, gate: real, d: PlasticDraw): (r: Ecosystem)
    ensures |r.microplastics| <= |e.microplastics| + 1
    ensures e.microplastics <= r.microplastics && e.plastics <= r.plastics
    ensures |e.microplastics| <= MaxMicroplastics ==> |r.microplastics| <= MaxMicroplastics
    ensures r.arena == e.arena && r.agents == e.agents
    ensures (|e.microplastics| < MaxMicroplastics && gate < MicroplasticIntroRate) <==>
              |r.microplastics| == |e.microplastics| + 1
    ensures |r.microplastics| == |e.microplastics| + 1 ==>
      && |r.plastics| == |e.plastics| + 1
      && r.microplastics[|e.microplastics|] == |e.plastics|
      && var m := r.plastics[|e.plastics|];
      && m.size == 1.0 && m.epsConcentration == 0.0 && m.organisms == [] && !m.isColonized
      && m.plasticType == d.plasticType && m.hydrolyzable == Hydrolyzable(d.plasticType)
      && m.x == d.x && m.y == d.y
    ensures |r.microplastics| != |e.microplastics| + 1 ==> r == e
  {
    if |e.microplastics| < MaxMicroplastics && gate < MicroplasticIntroRate then
      e.(plastics := e.plastics + [NewMicroplastic(d.plasticType, d.x, d.y)],
         microplastics := e.microplastics + [|e.plastics|])
    else e
  }

  lemma {:induction false} IntroduceAgentWellFormed(e: Ecosystem, gate: real, d: AgentDraw)
    requires WellFormed(e)
    ensures WellFormed(IntroduceAgent(e, gate, d))
  {
    var e' := IntroduceAgent(e, gate, d);
    forall q | 0 <= q < |e'.plastics| ensures PlasticOk(e'.plastics[q], |e'.arena|) {
      assert PlasticOk(e.plastics[q], |e.arena|);
    }
  }

  lemma {:induction false} IntroduceMicroplasticWellFormed(e: Ecosystem, gate: real, d: PlasticDraw)
    requires WellFormed(e)
    ensures WellFormed(IntroduceMicroplastic(e, gate, d))
  {
    var e' := IntroduceMicroplastic(e, gate, d);
    forall k | 0 <= k < |e'.arena| ensures AgentOk(e'.arena[k], |e'.plastics|) {
      assert AgentOk(e.arena[k], |e.plastics|);
    }
  }

  lemma {:induction false} IntroduceAgentPreservesInv(e: Ecosystem, gate: real, d: AgentDraw)
    requires Inv(e)
    ensures Inv(IntroduceAgent(e, gate, d))
  {
    var e' := IntroduceAgent(e, gate, d);
    if e' != e {
      assert |e.arena| !in e.agents;
      NoDupAppend(e.agents, |e.arena|);
      forall q | 0 <= q < |e.plastics| ensures PlasticOk(e'.plastics[q], |e'.arena|) {
        assert PlasticOk(e.plastics[q], |e.arena|);
      }
      forall i | 0 <= i < |e'.microplastics| ensures LinkedAt(e', e'.microplastics[i]) {
        var p := e.microplastics[i];
        assert LinkedAt(e, p);
        assert PlasticOk(e.plastics[p], |e.arena|);
        var occ := e.plastics[p].organisms;
        assert forall k :: 0 <= k < |occ| ==> e'.arena[occ[k]] == e.arena[occ[k]];
      }
    }
  }

  lemma {:induction false} IntroduceMicroplasticPreservesInv(e: Ecosystem, gate: real, d: PlasticDraw)
    requires Inv(e)
    ensures Inv(IntroduceMicroplastic(e, gate, d))
  {
    var e' := IntroduceMicroplastic(e, gate, d);
    if e' != e {
      assert |e.plastics| !in e.microplastics;
      NoDupAppend(e.microplastics, |e.plastics|);
      forall k | 0 <= k < |e.arena| ensures AgentOk(e'.arena[k], |e'.plastics|) {
        assert AgentOk(e.arena[k], |e.plastics|);
      }
      forall i | 0 <= i < |e'.microplastics| ensures LinkedAt(e', e'.microplastics[i]) {
        if i < |e.microplastics| {
          assert LinkedAt(e, e.microplastics[i]);
        }
      }
    }
  }

  /** A new agent is free, so every colonizing agent is still listed by its
      particle. */
  lemma {:induction false} IntroduceAgentKeepsListed(e: Ecosystem, gate: real, d: AgentDraw)
    requires Listed(e)
    ensures Listed(IntroduceAgent(e, gate, d))
  {
    var e' := IntroduceAgent(e, gate, d);
    forall b | 0 <= b < |e'.arena| ensures ListedAt(e', b) {
      if b < |e.arena| {
        assert ListedAt(e, b);
        assert e'.arena[b] == e.arena[b];
      }
    }
  }

  /** A new particle only extends both particle lists; the lists an agent is
      listed in stay as they were. */
  lemma {:induction false} IntroduceMicroplasticKeepsListed(e: Ecosystem, gate: real, d: PlasticDraw)
    requires Listed(e)
    ensures Listed(IntroduceMicroplastic(e, gate, d))
  {
    var e' := IntroduceMicroplastic(e, gate, d);
    forall b | 0 <= b < |e'.arena| ensures ListedAt(e', b) {
      assert ListedAt(e, b);
      if e.arena[b].isColonizing {
        var p := e.arena[b].plasticAttached.value;
        assert e'.plastics[p] == e.plastics[p];
        var i :| 0 <= i < |e.microplastics| && e.microplastics[i] == p;
        assert e'.microplastics[i] == p;
      }
    }
  }
}
