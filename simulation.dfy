/** The running simulation: the state the original keeps in globals, its
    initialization and the per-tick `update`, each operation a method proved
    against the pure step it performs. */
module Plastisphere {
  import opened Entities
  import opened Environment
  import opened Turnover
  import opened Eps
  import opened Succession
  import opened Movement
  import opened Degradation

  /** Population sizes at initialization. */
  const InitialAgentCount: nat := 30
  const InitialMicroplasticCount: nat := 3

  /** Every random draw one tick consumes. */
  datatype TickDraws = TickDraws(
    deaths: seq<real>,
    agentGate: real,
    newAgent: AgentDraw,
    plasticGate: real,
    newPlastic: PlasticDraw,
    steps: seq<Offset>,
    moves: seq<AgentMove>)

  /** Enough draws for a tick from `e`: one death draw per live agent, and a
      walk step (or move) per live particle (or agent), counting the one that
      may be introduced. */
  predicate DrawsFit(e: Ecosystem, d: TickDraws)
  {
    |d.deaths| >= |e.agents| && |d.steps| > |e.microplastics| && |d.moves| > |e.agents|
  }

  /** `update`: the phases of one tick in their fixed order. */
  function Tick(e: Ecosystem, d: TickDraws, adjDeathRate: real, threshold: real, adjDegradation: real): (r: Ecosystem)
    requires WellFormed(e) && DrawsFit(e, d)
    ensures WellFormed(r)
  {
    var e1 := e.(agents := Survivors(e.agents, d.deaths, e.arena, adjDeathRate));
    SurvivorsSubset(e.agents, d.deaths, e.arena, adjDeathRate);
    var e2 := IntroduceAgent(e1, d.agentGate, d.newAgent);
    IntroduceAgentWellFormed(e1, d.agentGate, d.newAgent);
    var e3 := IntroduceMicroplastic(e2, d.plasticGate, d.newPlastic);
    IntroduceMicroplasticWellFormed(e2, d.plasticGate, d.newPlastic);
    var e4 := Walked(e3, d.steps, d.moves, threshold);
    var e5 := Produce(e4);
    assert WellFormed(e5);
    var e6 := Dispersed(e5);
    Degrade(e6, adjDegradation)
  }

  /** Every phase keeps the invariant, hence so does a whole tick: the caps,
      the duplicate-free lists, the attachment facts and the size and EPS
      bounds of live particles hold after every tick. */
  lemma {:induction false} TickPreservesInv(e: Ecosystem, d: TickDraws, adjDeathRate: real, threshold: real, adjDegradation: real)
    requires Inv(e) && DrawsFit(e, d)
    ensures Inv(Tick(e, d, adjDeathRate, threshold, adjDegradation))
  {
    var e1 := e.(agents := Survivors(e.agents, d.deaths, e.arena, adjDeathRate));
    DeathPreservesInv(e, d.deaths, adjDeathRate);
    var e2 := IntroduceAgent(e1, d.agentGate, d.newAgent);
    IntroduceAgentPreservesInv(e1, d.agentGate, d.newAgent);
    var e3 := IntroduceMicroplastic(e2, d.plasticGate, d.newPlastic);
    IntroduceMicroplasticPreservesInv(e2, d.plasticGate, d.newPlastic);
    var e4 := Walked(e3, d.steps, d.moves, threshold);
    WalkPreservesInv(e3, d.steps, d.moves, threshold);
    var e5 := Produce(e4);
    ProducePreservesInv(e4);
    var e6 := Dispersed(e5);
    DispersionPreservesInv(e5);
    DegradePreservesInv(e6, adjDegradation);
  }

  /** Every phase keeps the converse link, hence so does a whole tick: after
      every tick each colonizing agent is listed by the live particle it is
      attached to. */
  lemma {:induction false} TickKeepsListed(e: Ecosystem, d: TickDraws, adjDeathRate: real, threshold: real, adjDegradation: real)
    requires Inv(e) && Listed(e) && DrawsFit(e, d)
    ensures Listed(Tick(e, d, adjDeathRate, threshold, adjDegradation))
  {
    var e1 := e.(agents := Survivors(e.agents, d.deaths, e.arena, adjDeathRate));
    DeathPreservesInv(e, d.deaths, adjDeathRate);
    assert Listed(e1) by {
      forall b | 0 <= b < |e1.arena| ensures ListedAt(e1, b) {
        assert ListedAt(e, b);
      }
    }
    var e2 := IntroduceAgent(e1, d.agentGate, d.newAgent);
    IntroduceAgentPreservesInv(e1, d.agentGate, d.newAgent);
    IntroduceAgentKeepsListed(e1, d.agentGate, d.newAgent);
    var e3 := IntroduceMicroplastic(e2, d.plasticGate, d.newPlastic);
    IntroduceMicroplasticPreservesInv(e2, d.plasticGate, d.newPlastic);
    IntroduceMicroplasticKeepsListed(e2, d.plasticGate, d.newPlastic);
    var e4 := Walked(e3, d.steps, d.moves, threshold);
    WalkPreservesInv(e3, d.steps, d.moves, threshold);
    WalkKeepsListed(e3, d.steps, d.moves, threshold);
    var e5 := Produce(e4);
    ProducePreservesInv(e4);
    ProduceKeepsListed(e4);
    var e6 := Dispersed(e5);
    DispersionPreservesInv(e5);
    DispersionKeepsListed(e5);
    DegradeKeepsListed(e6, adjDegradation);
  }

  /** The agents created at initialization, in draw order. */
  function Populate(ds: seq<AgentDraw>): (r: seq<Agent>)
    ensures |r| == |ds|
    ensures forall k :: 0 <= k < |ds| ==> r[k] == NewAgent(ds[k].organismType, ds[k].x, ds[k].y)
  {
    if ds == [] then []
    else Populate(ds[..|ds| - 1]) + [NewAgent(ds[|ds| - 1].organismType, ds[|ds| - 1].x, ds[|ds| - 1].y)]
  }

  /** The particles created at initialization, in draw order. */
  function Scatter(ds: seq<PlasticDraw>): (r: seq<Microplastic>)
    ensures |r| == |ds|
    ensures forall k :: 0 <= k < |ds| ==> r[k] == NewMicroplastic(ds[k].plasticType, ds[k].x, ds[k].y)
  {
    if ds == [] then []
    else Scatter(ds[..|ds| - 1]) + [NewMicroplastic(ds[|ds| - 1].plasticType, ds[|ds| - 1].x, ds[|ds| - 1].y)]
  }

  /** The identities 0 .. n-1, in order. */
  function Range(n: nat): (r: seq<nat>)
    ensures |r| == n
    ensures forall k :: 0 <= k < n ==> r[k] == k
  {
    if n == 0 then [] else Range(n - 1) + [n - 1]
  }

  /** The population `initialize` creates. */
  function Initial(agentDraws: seq<AgentDraw>, plasticDraws: seq<PlasticDraw>): (r: Ecosystem)
    ensures |r.arena| == |r.agents| == |agentDraws| && |r.plastics| == |r.microplastics| == |plasticDraws|
    ensures forall k :: 0 <= k < |r.arena| ==> !r.arena[k].isColonizing
    ensures forall q :: 0 <= q < |r.plastics| ==> r.plastics[q].organisms == [] && !r.plastics[q].isColonized
  {
    Ecosystem(Populate(agentDraws), Scatter(plasticDraws), Range(|agentDraws|), Range(|plasticDraws|))
  }

  /** The initial population satisfies the invariant, and lists every
      colonizing agent (there is none), whenever it is within
      the caps. */
  lemma {:induction false} InitialInv(agentDraws: seq<AgentDraw>, plasticDraws: seq<PlasticDraw>)
    requires |agentDraws| <= MaxAgents && |plasticDraws| <= MaxMicroplastics
    ensures Inv(Initial(agentDraws, plasticDraws))
    ensures Listed(Initial(agentDraws, plasticDraws))
  {
    var e := Initial(agentDraws, plasticDraws);
    forall q | 0 <= q < |e.plastics| ensures PlasticOk(e.plastics[q], |e.arena|) {
      assert e.plastics[q].organisms == [];
    }
  }

  /** The resident loop of `degrade_plastics` on a particle's size: one
      multiplication by `factor` per degrader among the occupants `occ`. */
  method ShrinkSize(size: real, factor: real, occ: seq<AgentId>, arena: seq<Agent>) returns (r: real)
    requires Below(occ, |arena|)
    ensures r == Shrunk(size, factor, occ, arena)
  {
    r := size;
    var k := 0;
    while k < |occ|
      invariant 0 <= k <= |occ| && Below(occ[k..], |arena|)
      invariant Shrunk(r, factor, occ[k..], arena) == Shrunk(size, factor, occ, arena)
    {
      ShrunkStep(r, factor, occ[k..], arena);
      assert occ[k..][0] == occ[k] && occ[k..][1..] == occ[k + 1..];
      if arena[occ[k]].organismType == Degrader {
        r := r * factor;
      }
      k := k + 1;
    }
    assert occ[k..] == [];
  }

  class Simulation {
    var time: nat
    var agentArena: seq<Agent>
    var plasticArena: seq<Microplastic>
    var agents: seq<AgentId>
    var microplastics: seq<PlasticId>

    const temperature: real
    const nutrientAvailability: real
    const proximityThreshold: real
    const adjDeathRate: real
    const adjDegradation: real

    /** The population as a value. */
    function Model(): Ecosystem
      reads this
    {
      Ecosystem(agentArena, plasticArena, agents, microplastics)
    }

    predicate Valid()
      reads this
    {
      && Inv(Model())
      && Listed(Model())
      && proximityThreshold == AdjustedProximityThreshold(nutrientAvailability)
      && adjDeathRate == AdjustedDeathRate(temperature)
      && adjDegradation == AdjustedDegradeEfficiency(temperature)
    }

    /** `initialize`, with the environment as parameters and the type and
        position draws of the initial agents and particles. */
    constructor Initialize(temperature: real, nutrientAvailability: real,
                           agentDraws: seq<AgentDraw>, plasticDraws: seq<PlasticDraw>)
      requires |agentDraws| == InitialAgentCount && |plasticDraws| == InitialMicroplasticCount
      ensures Valid()
      ensures time == 0 && Model() == Initial(agentDraws, plasticDraws)
      ensures this.temperature == temperature && this.nutrientAvailability == nutrientAvailability
    {
      this.temperature := temperature;
      this.nutrientAvailability := nutrientAvailability;
      proximityThreshold := AdjustedProximityThreshold(nutrientAvailability);
      adjDeathRate := AdjustedDeathRate(temperature);
      adjDegradation := AdjustedDegradeEfficiency(temperature);
      new;
      time := 0;
      agentArena := [];
      agents := [];
      plasticArena := [];
      microplastics := [];
      CreateAgents(agentDraws);
      CreateMicroplastics(plasticDraws);
      InitialInv(agentDraws, plasticDraws);
    }

    /** The agent loop of `initialize`: one new agent per draw, each appended
        to the arena and to the live list. */
    method CreateAgents(agentDraws: seq<AgentDraw>)
      requires agentArena == [] && agents == []
      modifies this
      ensures agentArena == Populate(agentDraws) && agents == Range(|agentDraws|)
      ensures time == old(time) && plasticArena == old(plasticArena) && microplastics == old(microplastics)
    {
      var i := 0;
      while i < |agentDraws|
        invariant 0 <= i <= |agentDraws|
        invariant agentArena == Populate(agentDraws[..i]) && agents == Range(i)
        invariant time == old(time) && plasticArena == old(plasticArena) && microplastics == old(microplastics)
      {
        assert agentDraws[..i + 1][..i] == agentDraws[..i];
        var d := agentDraws[i];
        agents := agents + [|agentArena|];
        agentArena := agentArena + [NewAgent(d.organismType, d.x, d.y)];
        i := i + 1;
      }
      assert agentDraws[..|agentDraws|] == agentDraws;
    }

    /** The particle loop of `initialize`: one new particle per draw, each
        appended to the arena and to the live list. */
    method CreateMicroplastics(plasticDraws: seq<PlasticDraw>)
      requires plasticArena == [] && microplastics == []
      modifies this
      ensures plasticArena == Scatter(plasticDraws) && microplastics == Range(|plasticDraws|)
      ensures time == old(time) && agentArena == old(agentArena) && agents == old(agents)
    {
      var i := 0;
      while i < |plasticDraws|
        invariant 0 <= i <= |plasticDraws|
        invariant plasticArena == Scatter(plasticDraws[..i]) && microplastics == Range(i)
        invariant time == old(time) && agentArena == old(agentArena) && agents == old(agents)
      {
        assert plasticDraws[..i + 1][..i] == plasticDraws[..i];
        var d := plasticDraws[i];
        microplastics := microplastics + [|plasticArena|];
        plasticArena := plasticArena + [NewMicroplastic(d.plasticType, d.x, d.y)];
        i := i + 1;
      }
      assert plasticDraws[..|plasticDraws|] == plasticDraws;
    }

    /** `death_process`: iterates the live list while removing from it, so
        the agent after each removed one is passed over; `draws[v]` is the
        draw of the v-th visit. */
    method DeathProcess(draws: seq<real>)
      requires WellFormed(Model()) && NoDup(agents) && |draws| >= |agents|
      modifies this
      ensures time == old(time)
      ensures Model() == old(Model()).(agents := Survivors(old(agents), draws, old(agentArena), adjDeathRate))
    {
      ghost var final := Survivors(agents, draws, agentArena, adjDeathRate);
      assert agents[..0] == [] && agents[0..] == agents;
      var i := 0;
      while i < |agents|
        invariant |agents| <= |draws| && Below(agents, |agentArena|) && NoDup(agents)
        invariant DeathPending(agents, i, draws, agentArena, adjDeathRate, final)
        invariant Model() == old(Model()).(agents := agents) && time == old(time)
        decreases |agents| - i
      {
        var a := agents[i];
        var dies := Dies(agentArena[a], draws[i], adjDeathRate);
        DeathVisit(agents, i, draws, agentArena, adjDeathRate, final);
        ghost var next := AfterVisit(agents, i, draws, agentArena, adjDeathRate);
        if dies {
          agents := RemoveFirst<AgentId>(agents, a);
        }
        assert agents == next;
        i := i + 1;
      }
      if i == |agents| {
        assert agents[..i] == agents && agents[i..] == [];
      }
    }

    /** `introduce_new_agents`. */
    method IntroduceNewAgents(gate: real, d: AgentDraw)
      modifies this
      ensures time == old(time)
      ensures Model() == IntroduceAgent(old(Model()), gate, d)
    {
      if |agents| < MaxAgents && gate < AgentIntroRate {
        agents := agents + [|agentArena|];
        agentArena := agentArena + [NewAgent(d.organismType, d.x, d.y)];
      }
    }

    /** `introduce_new_microplastics`. */
    method IntroduceNewMicroplastics(gate: real, d: PlasticDraw)
      modifies this
      ensures time == old(time)
      ensures Model() == IntroduceMicroplastic(old(Model()), gate, d)
    {
      if |microplastics| < MaxMicroplastics && gate < MicroplasticIntroRate {
        microplastics := microplastics + [|plasticArena|];
        plasticArena := plasticArena + [NewMicroplastic(d.plasticType, d.x, d.y)];
      }
    }

    /** The particle loop of `random_walk_and_adherence`. */
    method DriftParticles(steps: seq<Offset>)
      requires WellFormed(Model()) && |steps| >= |microplastics|
      modifies this
      ensures time == old(time)
      ensures Model() == old(Model()).(plastics := DriftAll(old(plasticArena), old(microplastics), steps))
    {
      var i := 0;
      while i < |microplastics|
        invariant 0 <= i <= |microplastics| && |plasticArena| == |old(plasticArena)|
        invariant Model() == old(Model()).(plastics := plasticArena) && time == old(time)
        invariant DriftAll(plasticArena, microplastics[i..], steps[i..]) == DriftAll(old(plasticArena), microplastics, steps)
      {
        assert microplastics[i..][1..] == microplastics[i + 1..] && steps[i..][1..] == steps[i + 1..];
        var p := microplastics[i];
        var m := plasticArena[p];
        plasticArena := plasticArena[p := m.(x := Clamp(m.x + steps[i].dx), y := Clamp(m.y + steps[i].dy))];
        i := i + 1;
      }
      assert microplastics[i..] == [];
    }

    /** `update_agent_position_with_plastic`: a colonizing agent takes its
        particle's position plus one jitter draw on both axes. */
    method UpdateAgentPositionWithPlastic(a: AgentId, jitter: real)
      requires WellFormed(Model()) && a < |agentArena|
      modifies this
      ensures time == old(time)
      ensures old(agentArena[a]).isColonizing ==> old(agentArena[a]).plasticAttached.Some? && old(agentArena[a]).plasticAttached.value < |plasticArena|
      ensures Model() == old(Model()).(arena :=
        var ag := old(agentArena[a]);
        if ag.isColonizing
        then old(agentArena)[a := ag.(x := plasticArena[ag.plasticAttached.value].x + jitter,
                                      y := plasticArena[ag.plasticAttached.value].y + jitter)]
        else old(agentArena))
    {
      assert AgentOk(agentArena[a], |plasticArena|);
      if agentArena[a].isColonizing {
        var m := plasticArena[agentArena[a].plasticAttached.value];
        agentArena := agentArena[a := agentArena[a].(x := m.x + jitter, y := m.y + jitter)];
      }
    }

    /** The adherence scan of a free agent of type `t` at (x, y): the position
        in the live list of the first particle close enough whose succession
        rule accepts the agent, if any. */
    method FindAttracting(t: OrganismType, x: real, y: real) returns (found: Option<nat>)
      requires WellFormed(Model())
      ensures found == FirstAccepting(Model(), t, x, y, microplastics, proximityThreshold)
    {
      ghost var e := Model();
      FirstAcceptingIsFirst(e, t, x, y, microplastics, proximityThreshold);
      var j := 0;
      while j < |microplastics|
        invariant 0 <= j <= |microplastics|
        invariant forall jj :: 0 <= jj < j ==> !Accepts(e, t, x, y, microplastics[jj], proximityThreshold)
      {
        var m := plasticArena[microplastics[j]];
        assert PlasticOk(m, |agentArena|);
        if Close(x, y, m, proximityThreshold) && AdhereToPlastic(t, m, agentArena) {
          assert Accepts(e, t, x, y, microplastics[j], proximityThreshold);
          return Some(j);
        }
        j := j + 1;
      }
      return None;
    }

    /** The turn of a free agent in `random_walk_and_adherence`: walk, clamp,
        then scan the live particles in order and attach to the first one
        that is close enough and accepts. */
    method WalkFreeAgent(a: AgentId, mv: AgentMove)
      requires WellFormed(Model()) && a < |agentArena| && !agentArena[a].isColonizing
      modifies this
      ensures time == old(time)
      ensures Model() == AgentTurn(old(Model()), a, mv, proximityThreshold)
    {
      ghost var e0 := Model();
      var ag := agentArena[a];
      var x := Clamp(ag.x + mv.walk.dx);
      var y := Clamp(ag.y + mv.walk.dy);
      agentArena := agentArena[a := ag.(x := x, y := y)];
      ghost var e1 := Model();
      assert e1 == Moved(e0, a, x, y);
      var found := FindAttracting(ag.organismType, x, y);
      ScanIgnoresMove(e0, a, x, y, ag.organismType, x, y, e0.microplastics, proximityThreshold);
      if found.Some? {
        var p := microplastics[found.value];
        var m := plasticArena[p];
        agentArena := agentArena[a := agentArena[a].(isColonizing := true)];
        plasticArena := plasticArena[p := m.(isColonized := true, organisms := m.organisms + [a])];
        agentArena := agentArena[a := agentArena[a].(plasticAttached := Some(p))];
        assert Model() == Joined(e1, a, p);
        FreeAgentJoins(e0, a, mv, proximityThreshold, x, y, found.value);
      } else {
        FreeAgentStays(e0, a, mv, proximityThreshold, x, y);
      }
    }

    /** One agent's turn in the agent loop of `random_walk_and_adherence`. */
    method TakeTurn(a: AgentId, mv: AgentMove)
      requires WellFormed(Model()) && a < |agentArena|
      modifies this
      ensures time == old(time)
      ensures Model() == AgentTurn(old(Model()), a, mv, proximityThreshold)
    {
      if !agentArena[a].isColonizing {
        WalkFreeAgent(a, mv);
      } else {
        ColonizingAgentTurn(Model(), a, mv, proximityThreshold);
        UpdateAgentPositionWithPlastic(a, mv.jitter);
      }
    }

    /** `random_walk_and_adherence`: particles drift first, then every live
        agent takes its turn, in list order. */
    method RandomWalkAndAdherence(steps: seq<Offset>, moves: seq<AgentMove>)
      requires WellFormed(Model()) && |steps| >= |microplastics| && |moves| >= |agents|
      modifies this
      ensures time == old(time)
      ensures Model() == Walked(old(Model()), steps, moves, proximityThreshold)
    {
      DriftParticles(steps);
      DriftAllKeepsArenas(old(plasticArena), microplastics, steps, agentArena);
      ghost var e1 := Model();
      var k := 0;
      while k < |agents|
        invariant 0 <= k <= |agents| && agents == e1.agents && WellFormed(Model()) && time == old(time)
        invariant AgentTurns(Model(), agents[k..], moves[k..], proximityThreshold)
               == AgentTurns(e1, e1.agents, moves, proximityThreshold)
      {
        assert agents[k..][1..] == agents[k + 1..] && moves[k..][1..] == moves[k + 1..];
        ghost var before := Model();
        TakeTurn(agents[k], moves[k]);
        assert AgentTurns(before, agents[k..], moves[k..], proximityThreshold)
            == AgentTurns(Model(), agents[k + 1..], moves[k + 1..], proximityThreshold);
        k := k + 1;
      }
      assert agents[k..] == [];
    }

    /** `produce_eps` of agent `a`. */
    method ProduceEps(a: AgentId)
      requires WellFormed(Model()) && a < |agentArena|
      modifies this
      ensures AgentOk(old(agentArena[a]), |old(plasticArena)|)
      ensures WellFormed(Model()) && time == old(time)
      ensures Model() == old(Model()).(plastics := Produced(old(plasticArena), old(agentArena[a])))
    {
      var ag := agentArena[a];
      assert AgentOk(ag, |plasticArena|);
      ProducedKeepsArenas(plasticArena, agentArena, ag);
      if ag.isColonizing && plasticArena[ag.plasticAttached.value].epsConcentration < EpsDispersionThreshold {
        var p := ag.plasticAttached.value;
        plasticArena := plasticArena[p := plasticArena[p].(epsConcentration := plasticArena[p].epsConcentration + ag.epsProductionRate)];
      }
    }

    /** The inner secretion loop of `update`: the occupants of particle `p`
        produce, in occupant order. */
    method ProduceOccupants(p: PlasticId)
      requires WellFormed(Model()) && p < |plasticArena|
      modifies this
      ensures Below(old(plasticArena[p]).organisms, |old(agentArena)|)
      ensures time == old(time)
      ensures Model() == old(Model()).(plastics := ProduceAll(old(plasticArena), old(agentArena), old(plasticArena[p]).organisms))
    {
      var occ := plasticArena[p].organisms;
      assert PlasticOk(plasticArena[p], |agentArena|);
      var k := 0;
      while k < |occ|
        invariant 0 <= k <= |occ|
        invariant WellFormed(Model()) && Model() == old(Model()).(plastics := plasticArena) && time == old(time)
        invariant Below(occ[k..], |agentArena|)
        invariant ProduceAll(plasticArena, agentArena, occ[k..]) == ProduceAll(old(plasticArena), agentArena, occ)
      {
        ProduceAllStep(plasticArena, agentArena, occ[k..]);
        assert occ[k..][0] == occ[k] && occ[k..][1..] == occ[k + 1..];
        ProduceEps(occ[k]);
        k := k + 1;
      }
      assert occ[k..] == [];
    }

    /** The secretion phase of `update`: every occupant of every live
        particle produces, particles and occupants in list order. */
    method SecreteEps()
      requires WellFormed(Model())
      modifies this
      ensures time == old(time)
      ensures Model() == Produce(old(Model()))
    {
      ghost var final := Produce(Model()).plastics;
      var i := 0;
      while i < |microplastics|
        invariant 0 <= i <= |microplastics|
        invariant WellFormed(Model()) && Model() == old(Model()).(plastics := plasticArena) && time == old(time)
        invariant Below(microplastics[i..], |plasticArena|)
        invariant ProductionPhase(plasticArena, agentArena, microplastics[i..]) == final
      {
        ProductionPhaseStep(plasticArena, agentArena, microplastics[i..]);
        assert microplastics[i..][0] == microplastics[i] && microplastics[i..][1..] == microplastics[i + 1..];
        ProduceOccupants(microplastics[i]);
        i := i + 1;
      }
      assert microplastics[i..] == [];
    }

    /** `dispersion_based_on_eps`: the first ready particle releases its most
        recent occupant, and the scan stops. */
    method DispersionBasedOnEps()
      requires WellFormed(Model())
      modifies this
      ensures time == old(time)
      ensures Model() == Dispersed(old(Model()))
    {
      var i := 0;
      while i < |microplastics|
        invariant 0 <= i <= |microplastics|
        invariant Model() == old(Model()) && time == old(time)
        invariant forall j :: 0 <= j < i ==> !Ready(plasticArena[microplastics[j]])
      {
        var p := microplastics[i];
        var m := plasticArena[p];
        if m.epsConcentration >= EpsDispersionThreshold && m.organisms != [] {
          assert FirstReady(microplastics, plasticArena) == Some(i);
          assert PlasticOk(m, |agentArena|);
          var a := m.organisms[|m.organisms| - 1];
          plasticArena := plasticArena[p := m.(organisms := m.organisms[..|m.organisms| - 1])];
          agentArena := agentArena[a := agentArena[a].(isColonizing := false)];
          if plasticArena[p].organisms == [] {
            plasticArena := plasticArena[p := plasticArena[p].(isColonized := false, epsConcentration := 0.0)];
          }
          return;
        }
        i := i + 1;
      }
      DispersionIdleWhenNoneReady(Model());
    }

    /** The resident loop of `degrade_plastics` for particle `p`. */
    method ShrinkParticle(p: PlasticId)
      requires WellFormed(Model()) && p < |plasticArena|
      modifies this
      ensures time == old(time)
      ensures Model() == ShrinkOne(old(Model()), p, adjDegradation)
    {
      var m0 := plasticArena[p];
      assert PlasticOk(m0, |agentArena|);
      var factor := DegradeFactor(m0.hydrolyzable, adjDegradation);
      var size := ShrinkSize(m0.size, factor, m0.organisms, agentArena);
      plasticArena := plasticArena[p := m0.(size := size)];
    }

    /** The release loop of `degrade_plastics` for the removed particle `p`. */
    method ReleaseOccupants(p: PlasticId)
      requires WellFormed(Model()) && p < |plasticArena|
      modifies this
      ensures Below(old(plasticArena[p]).organisms, |old(agentArena)|)
      ensures time == old(time)
      ensures Model() == old(Model()).(arena := Release(old(agentArena), old(plasticArena[p]).organisms))
    {
      var occ := plasticArena[p].organisms;
      assert PlasticOk(plasticArena[p], |agentArena|);
      var k := 0;
      while k < |occ|
        invariant 0 <= k <= |occ| && |agentArena| == |old(agentArena)|
        invariant Model() == old(Model()).(arena := agentArena) && time == old(time)
        invariant Release(agentArena, occ[k..]) == Release(old(agentArena), occ)
      {
        assert occ[k..][1..] == occ[k + 1..];
        var b := occ[k];
        agentArena := agentArena[b := agentArena[b].(isColonizing := false, plasticAttached := None)];
        k := k + 1;
      }
      assert occ[k..] == [];
    }

    /** One iteration of `degrade_plastics`: shrink `p`, and remove it from
        the live list if eroded, releasing its occupants if it was colonized. */
    method DegradeParticle(p: PlasticId)
      requires WellFormed(Model()) && p < |plasticArena|
      modifies this
      ensures time == old(time)
      ensures Model() == DegradeOne(old(Model()), p, adjDegradation)
    {
      ShrinkParticle(p);
      ghost var e1 := Model();
      if plasticArena[p].size <= MinDegradableSize {
        microplastics := RemoveFirst<PlasticId>(microplastics, p);
        if plasticArena[p].isColonized {
          ReleaseOccupants(p);
        }
        assert Model() == RemoveEroded(e1, p);
      }
    }

    /** `degrade_plastics`: over a copy of the live list, shrink each
        particle, and remove an eroded one, releasing its occupants. */
    method DegradePlastics()
      requires WellFormed(Model())
      modifies this
      ensures time == old(time)
      ensures Model() == Degrade(old(Model()), adjDegradation)
    {
      ghost var final := Degrade(Model(), adjDegradation);
      var snapshot := microplastics;
      var i := 0;
      while i < |snapshot|
        invariant 0 <= i <= |snapshot|
        invariant WellFormed(Model()) && |plasticArena| == |old(plasticArena)| && time == old(time)
        invariant DegradeEach(Model(), snapshot[i..], adjDegradation) == final
      {
        assert snapshot[i..][1..] == snapshot[i + 1..];
        DegradeParticle(snapshot[i]);
        i := i + 1;
      }
      assert snapshot[i..] == [];
    }

    /** The phases of one `update`, in order. */
    method RunPhases(d: TickDraws)
      requires WellFormed(Model()) && NoDup(agents) && DrawsFit(Model(), d)
      modifies this
      ensures time == old(time)
      ensures Model() == Tick(old(Model()), d, adjDeathRate, proximityThreshold, adjDegradation)
    {
      ghost var e0 := Model();
      DeathProcess(d.deaths);
      SurvivorsSubset(e0.agents, d.deaths, e0.arena, adjDeathRate);
      ghost var e1 := Model();
      IntroduceNewAgents(d.agentGate, d.newAgent);
      IntroduceAgentWellFormed(e1, d.agentGate, d.newAgent);
      ghost var e2 := Model();
      IntroduceNewMicroplastics(d.plasticGate, d.newPlastic);
      IntroduceMicroplasticWellFormed(e2, d.plasticGate, d.newPlastic);
      ghost var e3 := Model();
      RandomWalkAndAdherence(d.steps, d.moves);
      ghost var e4 := Model();
      assert e4 == Walked(e3, d.steps, d.moves, proximityThreshold);
      SecreteEps();
      ghost var e5 := Model();
      assert e5 == Produce(e4);
      DispersionBasedOnEps();
      ghost var e6 := Model();
      assert e6 == Dispersed(e5);
      DegradePlastics();
      assert Model() == Degrade(e6, adjDegradation);
    }

    /** `update`: advance the clock, then run the phases. */
    method Update(d: TickDraws)
      requires Valid() && DrawsFit(Model(), d)
      modifies this
      ensures Valid() && time == old(time) + 1
      ensures Model() == Tick(old(Model()), d, adjDeathRate, proximityThreshold, adjDegradation)
    {
      TickPreservesInv(Model(), d, adjDeathRate, proximityThreshold, adjDegradation);
      TickKeepsListed(Model(), d, adjDeathRate, proximityThreshold, adjDegradation);
      time := time + 1;
      RunPhases(d);
    }
  }
}
