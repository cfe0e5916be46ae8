# Plastisphere biofilm simulation, modelled in Dafny

`abm-final.py` is an agent-based model of biofilm formation on microplastic
particles in water:

- **Agents** are microorganisms: pioneer colonizers, secondary colonizers and
  degraders.
- **Microplastics** are particles of one of seven plastic types.
- Both live in the unit square.

Each tick of `update` runs these phases in order:

1. Agents die at random, with a lower death rate while colonizing.
2. A new agent and a new particle may be introduced, each up to a cap.
3. Particles drift. Free agents walk and attach to a nearby particle whose
   succession rule accepts them. Colonizing agents follow their particle with
   a jitter.
4. Attached agents secrete EPS (extracellular polymeric substance). Secretion
   is gated at the dispersion threshold.
5. The first particle whose EPS reached that threshold releases its most
   recent occupant.
6. Degraders shrink their particle. A particle at or below the minimum size is
   removed and its occupants are set free.

The project models this per-tick core, with the initialization and the
environment adjustments, and proves properties of it.

Structure:

- `entities.dfy`: the constants, the two type mappings, the agent and
  particle records, and the population as a value (`Ecosystem`).
  - Each agent and each particle ever created is an element of an arena (a
    sequence that only grows). Its index there is its identity.
  - The live lists and a particle's occupant list hold identities.
  - A dead agent stays in the arena. It also stays in the occupant list of the
    particle it was attached to, as the Python object does, and it goes on
    secreting EPS and counting for the succession rules there.
  - `Inv` is the invariant every tick keeps:
    - identities in range;
    - no repeats in the live lists;
    - the caps of 110 agents and 8 particles;
    - for each live particle: no repeated occupants, colonized exactly when it
      has occupants, and every occupant colonizing and attached to it;
    - every live particle larger than the removal threshold, with EPS in
      [0, 20.5).
  - `Listed` is the converse link, also kept by every tick: every colonizing
    agent of the arena, live or dead, is among the occupants of the live
    particle it is attached to.
- `environment.dfy`: the three adjustments derived from temperature and
  nutrient availability.
- `succession.dfy`: `adhere_to_plastic`.
- `turnover.dfy`: `death_process` and the two introduction functions.
- `eps.dfy`: `produce_eps`, the secretion phase of `update`, and
  `dispersion_based_on_eps`.
- `movement.dfy`: `random_walk_and_adherence` and
  `update_agent_position_with_plastic`.
- `degradation.dfy`: `degrade_plastics`.
- `simulation.dfy`: class `Simulation`.
  - Its fields hold the state the original keeps in global variables.
  - The constructor is `initialize`.
  - One method per function of the original, plus one per loop the original
    runs inside a function.
  - Each method is proved to change the state as the pure step function it
    performs says (`Model() == Step(old(Model()))`). The pairs are, for
    example, `DeathProcess` and `Survivors`, `RandomWalkAndAdherence` and
    `Walked`, `SecreteEps` and `Produce`, `DispersionBasedOnEps` and
    `Dispersed`, `DegradePlastics` and `Degrade`, `Update` and `Tick`.
  - `Update` keeps `Valid()`, which holds `Inv` and `Listed`. This follows
    from `TickPreservesInv` and `TickKeepsListed`, proved phase by phase on
    the pure functions.

How the original's behaviour is modelled:

- **Randomness.** Every random draw is a parameter:
  - the death draws, one per visited agent;
  - the two introduction gates and the type and position of a new agent or
    particle;
  - the walk steps of the particles and the free agents;
  - the jitter of a colonizing agent.
- **Removal during iteration.** `death_process` removes agents from the list
  it is iterating over. The agent that slides into the visited slot is passed
  over without a draw. The model reproduces this skip in `Survivors`.
- **References left behind.** The original keeps no stronger bookkeeping
  than `Listed`, and the model reproduces what it leaves behind:
  - a dispersed agent stops colonizing but keeps its `plastic_attached`
    reference (abm-final.py:250-251);
  - an agent that dies while attached stays in the arena and among its
    particle's occupants (abm-final.py:239-242);
  - released agents stay in the occupant list of the removed particle
    (abm-final.py:157-162).
- **Iterating over a copy.** `degrade_plastics` iterates over a copy of the
  live list and removes from the original. The model does the same
  (`DegradeEach` over the snapshot).

## Model

| member | source | states |
|---|---|---|
| Entities.EpsRate | abm-final.py:17-21 | the organism-to-EPS mapping lies in [0, 0.5] and is positive exactly for pioneer colonizers |
| Entities.Hydrolyzable | abm-final.py:24-32 | exactly PUR, PLA and PET are hydrolyzable |
| Entities.NewAgent | abm-final.py:35-41 | a new agent is free and attached to nothing, has the given type and position and that type's EPS rate |
| Entities.NewMicroplastic | abm-final.py:67-75 | a new particle has size 1, no EPS, no occupants, is not colonized, has the given type and position and that type's hydrolysis capability, and is within the bounds of a live particle |
| Entities.RemoveFirst | abm-final.py:239 | `list.remove` of a present element leaves one element fewer, each of them from the list; for an absent element the model returns the list unchanged where Python raises `ValueError`, a case the core never reaches because it only removes elements it found in the list |
| Environment.AdjustedDeathRate | abm-final.py:171-174 | for temperatures in [0, 30] the extra death rate lies in [0, 0.0024], and it is zero exactly at temperature 0 |
| Environment.AdjustedDegradeEfficiency | abm-final.py:176-179 | for temperatures in [0, 30] the adjustment lies in [0, 0.15], reaching 0.15 at 30 |
| Environment.AdjustedProximityThreshold | abm-final.py:181-188 | for nutrient availability in [0, 4] the squared-distance threshold lies in [0.005, 0.025]; at the default availability 2 it is 0.015 |
| Environment.ProximityThresholdMonotone | abm-final.py:181-188 | more nutrients never shrink the attachment threshold |
| Succession.Hosts | abm-final.py:51-57 | the occupant scan answers true exactly when some occupant has the type looked for |
| Succession.AdhereToPlastic | abm-final.py:43-58 | acceptance if and only if the particle is above the minimum size and the agent is a pioneer, or a secondary colonizer on a particle with EPS at least 10 that hosts a pioneer, or a degrader on a particle that hosts a secondary colonizer |
| Turnover.Survivors | abm-final.py:234-242 | the death pass never lengthens the live list |
| Turnover.Dies | abm-final.py:237-241 | every agent dies on a draw below the attached death rate plus the adjustment, and no agent dies on a draw at or above the free death rate plus the adjustment |
| Turnover.SurvivorsSubset | abm-final.py:234-242 | every survivor was live before and survivors stay free of repeats |
| Turnover.DeathSparesNeighbour | abm-final.py:236-242 | of two neighbours in the list at least one survives the pass, a consequence of the skip |
| Turnover.NoDeathKeepsAll | abm-final.py:234-242 | when no visit draws a death the live list is unchanged |
| Turnover.FirstVisitedDiesOnItsDraw | abm-final.py:236-242 | the first agent is removed if and only if its draw is below the death rate for its colonization state |
| Turnover.DeathVisitRemoves | abm-final.py:236-242 | a visit with a death drops the agent, and the agent sliding into its place is passed over |
| Turnover.DeathVisit | abm-final.py:236-242 | a visit keeps the live list in range and free of repeats, and leaves the rest of the pass producing the same final list |
| Turnover.DeathPreservesInv | abm-final.py:234-242 | the death pass keeps the invariant |
| Turnover.IntroduceAgent | abm-final.py:218-224 | an agent is appended exactly when fewer than 110 are live and the gate draw is below 0.07; it is free, attached to nothing, of the drawn type and position with that type's EPS rate, and its identity is the next arena slot; the old arena and live list are kept as a prefix and particles are untouched; otherwise nothing changes |
| Turnover.IntroduceMicroplastic | abm-final.py:226-232 | a particle is appended exactly when fewer than 8 are live and the gate draw is below 0.05; it has size 1, no EPS, no occupants, is not colonized, and has the drawn type and position and that type's hydrolysis capability; the old arena and live list are kept as a prefix and agents are untouched; otherwise nothing changes |
| Turnover.IntroduceAgentWellFormed | abm-final.py:218-224 | introducing an agent keeps every reference in range |
| Turnover.IntroduceMicroplasticWellFormed | abm-final.py:226-232 | introducing a particle keeps every reference in range |
| Turnover.IntroduceAgentPreservesInv | abm-final.py:218-224 | introducing an agent keeps the invariant |
| Turnover.IntroduceMicroplasticPreservesInv | abm-final.py:226-232 | introducing a particle keeps the invariant |
| Turnover.IntroduceAgentKeepsListed | abm-final.py:218-224 | a new agent is free, so every colonizing agent stays listed by its particle |
| Turnover.IntroduceMicroplasticKeepsListed | abm-final.py:226-232 | a new particle only extends the particle lists, so every colonizing agent stays listed by its particle |
| Eps.Produced | abm-final.py:60-63 | only the particle the agent is attached to can change, and only its EPS; it grows by exactly the agent's rate when the agent is colonizing and the EPS is below 20, and stays the same otherwise |
| Eps.ProduceAll | abm-final.py:275-276 | secretion by a particle's occupants changes EPS concentrations only |
| Eps.ProductionPhase | abm-final.py:273-276 | the secretion phase changes EPS concentrations only |
| Eps.Produce | abm-final.py:273-276 | the secretion phase changes only EPS concentrations; agents and both live lists are unchanged |
| Eps.AccumulatedBounds | abm-final.py:60-63 | secretion never lowers EPS, never moves EPS that has reached 20, and keeps EPS below 20.5 |
| Eps.AccumulatedUngated | abm-final.py:60-63 | while the total stays below 20, every occupant adds exactly its rate |
| Eps.Accumulated | abm-final.py:60-63 | EPS that has reached 20 is not changed by the occupants |
| Eps.RateSumNonNegative | abm-final.py:17-21 | the occupants' rates sum to a non-negative value |
| Eps.ProduceAllOwnParticle | abm-final.py:274-276 | occupants attached to `p` change only `p`, which ends with the gated accumulation of their rates |
| Eps.ProductionPhaseLinked | abm-final.py:273-276 | with the attachment links in place, each live particle gets the gated accumulation of its own occupants' rates and every other particle is unchanged |
| Eps.ProducePreservesInv | abm-final.py:273-276 | the secretion phase keeps the invariant, including EPS below 20.5 |
| Eps.FirstReady | abm-final.py:246-248 | the scan returns the first particle in list order with EPS at least 20 and an occupant, and nothing exactly when there is none |
| Eps.Dispersed | abm-final.py:244-258 | dispersion keeps every reference in range and leaves both live lists unchanged |
| Eps.DispersionPopsLastOfFirstReady | abm-final.py:244-258 | the first ready particle loses exactly its last occupant, which stops colonizing; an emptied particle is no longer colonized and its EPS is 0; nothing else changes |
| Eps.DispersionIdleWhenNoneReady | abm-final.py:244-258 | without a ready particle nothing changes |
| Eps.DispersionPreservesInv | abm-final.py:244-258 | dispersion keeps the invariant |
| Eps.ProduceKeepsListed | abm-final.py:273-276 | secretion keeps every colonizing agent listed by its particle |
| Eps.DispersionKeepsListed | abm-final.py:244-258 | the popped occupant stops colonizing and every other occupant stays listed, so every colonizing agent stays listed by its particle |
| Degradation.DegradeFactor | abm-final.py:146-153 | in the calibrated range of the adjustment the per-degrader factor lies strictly between 0 and 1 |
| Degradation.HydrolyzableShrinksFaster | abm-final.py:146-153 | a hydrolyzable particle's factor is strictly smaller than a non-hydrolyzable one's |
| Degradation.Shrunk | abm-final.py:147-153 | without a resident degrader the size is unchanged |
| Degradation.ShrunkIsPower | abm-final.py:147-153 | the occupant loop multiplies the size by the factor once per resident degrader |
| Degradation.ShrunkNeverGrows | abm-final.py:147-153 | a positive size stays positive and never grows; it shrinks strictly exactly when some occupant is a degrader |
| Degradation.ShrunkDependsOnTypes | abm-final.py:147-153 | the shrinkage depends only on the occupants' types, so releasing agents earlier in the pass does not affect it |
| Degradation.Release | abm-final.py:159-162 | exactly the listed occupants become free and attached to nothing; every other agent is unchanged |
| Degradation.ShrinkOne | abm-final.py:144-153 | shrinking a particle keeps every reference in range and changes no list and no agent |
| Degradation.RemoveEroded | abm-final.py:155-162 | removal takes the particle off the live list like `list.remove` and releases its occupants exactly when it is colonized |
| Degradation.DegradeOne | abm-final.py:144-162 | one iteration keeps every reference in range and changes neither the agent list nor the arena sizes |
| Degradation.DegradeOneEffect | abm-final.py:144-162 | one iteration gives particle `p` its new size and, when it is eroded, takes it off the live list like `list.remove` and frees its occupants if it is colonized; otherwise the lists and agents are unchanged |
| Degradation.DegradeEach | abm-final.py:144-162 | the pass over the copy keeps every reference in range and leaves the agent list alone |
| Degradation.Degrade | abm-final.py:140-162 | `degrade_plastics` keeps every reference in range, leaves the agent list alone and keeps both arena sizes |
| Degradation.KeepLarge | abm-final.py:155-157 | filtering never lengthens the list |
| Degradation.KeepLargeSound | abm-final.py:155-157 | every kept particle was live and is above the removal threshold |
| Degradation.KeepLargeComplete | abm-final.py:155-157 | every live particle above the removal threshold is kept |
| Degradation.KeepLargeNoDup | abm-final.py:155-157 | the filtered list has no repeats |
| Degradation.DegradeStep | abm-final.py:144-162 | one iteration gives the head of the copy its new size and, if it is eroded, takes it off the live list and frees its occupants when it was colonized |
| Degradation.DegradeEachSize | abm-final.py:144-153 | every particle in the copy ends with the size computed from the state before the pass; no other particle changes |
| Degradation.DegradeEachLive | abm-final.py:155-157 | the live list keeps, in order, exactly the particles of the copy whose new size is above the threshold |
| Degradation.DegradeEachReleases | abm-final.py:155-162 | exactly the occupants of removed colonized particles are freed; every other agent is unchanged |
| Degradation.DegradeSizes | abm-final.py:144-153 | every live particle gets the size computed from its own occupants before the pass, and nothing else of it changes |
| Degradation.DegradeKeepsLarge | abm-final.py:155-157 | the new live list is the old one filtered to the particles above the removal threshold, in order |
| Degradation.DegradeReleasesOccupants | abm-final.py:159-162 | every occupant of a removed colonized particle ends free and attached to nothing |
| Degradation.DegradeNeverGrows | abm-final.py:144-153 | in the calibrated range no live particle grows and sizes stay positive |
| Degradation.DegradeReleases | abm-final.py:155-162 | the agents after the pass are those before, with exactly the released occupants freed |
| Degradation.ReleasedFromEroded | abm-final.py:155-162 | every released agent occupied a live particle that the pass removed |
| Degradation.DegradeKeepsOccupant | abm-final.py:155-162 | an occupant of a surviving particle is not touched by the pass |
| Degradation.DegradeLinkedAt | abm-final.py:144-162 | a surviving particle keeps its attachment facts and its size and EPS bounds |
| Degradation.DegradePreservesInv | abm-final.py:140-162 | `degrade_plastics` keeps the invariant |
| Degradation.DegradeKeepsListed | abm-final.py:140-162 | an agent still colonizing after the pass was not released, so its particle survived and still lists it |
| Movement.Clamp | abm-final.py:196-197 | the clamp lands in [0, 1], keeps values inside, and sends values outside to the nearer bound |
| Movement.Drifted | abm-final.py:193-197 | a drift step changes only the particle's position, and the particle ends in the unit square |
| Movement.DriftAllMovesLive | abm-final.py:193-197 | the i-th live particle takes the i-th step; particles that are not live stay put |
| Movement.DriftAll | abm-final.py:193-197 | the drift keeps the number of particles |
| Movement.DriftAllOnlyMoves | abm-final.py:193-197 | the drift changes positions only |
| Movement.FirstAccepting | abm-final.py:206-213 | the scan answers a position in the candidate list or nothing |
| Movement.FirstAcceptingIsFirst | abm-final.py:206-213 | the adherence scan returns the first particle in list order that is close enough and accepts the agent, and nothing exactly when none does |
| Movement.Moved | abm-final.py:201-204 | placing an agent keeps every reference in range and changes no list and no particle |
| Movement.Joined | abm-final.py:208-212 | attaching keeps every reference in range and leaves both live lists unchanged |
| Movement.ScanIgnoresMove | abm-final.py:203-207 | acceptance does not depend on where the agents stand, so moving the agent before the scan does not change its answer |
| Movement.AgentTurn | abm-final.py:199-216 | an agent's turn keeps every reference in range and leaves both live lists unchanged |
| Movement.FreeAgentTurn | abm-final.py:199-213 | a free agent walks, is clamped, and either attaches to the first accepting particle (which becomes colonized, with the agent appended to its occupants) or stays free; no agent other than this one, and no particle other than the one it joins, changes |
| Movement.AttachmentObeysSuccession | abm-final.py:205-213 | an agent that attaches was close enough to a live particle whose succession rule accepts it |
| Movement.ColonizingAgentTurn | abm-final.py:214-216 | a colonizing agent takes its particle's position plus the same jitter on both axes; nothing else changes |
| Movement.AgentTurns | abm-final.py:199-216 | the agent loop keeps every reference in range and leaves both live lists unchanged |
| Movement.Walked | abm-final.py:190-216 | the walk keeps every reference in range and leaves both live lists unchanged |
| Movement.AgentTurnsFrame | abm-final.py:199-216 | agents outside the loop are untouched and no particle moves during the agent loop |
| Movement.AgentTurnOthers | abm-final.py:199-216 | a turn changes no other agent |
| Movement.AgentTurnParticles | abm-final.py:199-216 | a turn changes no particle's position, size or EPS |
| Movement.FreeAgentClamped | abm-final.py:201-204 | a free agent ends its turn in the unit square |
| Movement.AgentTurnsClampFree | abm-final.py:199-204 | every agent that was free when the loop began ends in the unit square |
| Movement.WalkClamps | abm-final.py:190-204 | after the walk, every live particle and every agent that was free is in the unit square |
| Movement.AgentTurnPreservesInv | abm-final.py:199-216 | one turn keeps the invariant: a free agent occupies no live particle, so appending it keeps occupant lists free of repeats and attached |
| Movement.AgentTurnsPreservesInv | abm-final.py:199-216 | the agent loop keeps the invariant |
| Movement.WalkPreservesInv | abm-final.py:190-216 | `random_walk_and_adherence` keeps the invariant |
| Movement.MovedKeepsListed | abm-final.py:201-204 | moving an agent keeps every colonizing agent listed |
| Movement.JoinedKeepsListed | abm-final.py:208-212 | an agent joining a live particle is listed by it, and agents already listed stay listed |
| Movement.AgentTurnKeepsListed | abm-final.py:199-216 | one turn keeps every colonizing agent listed by its particle |
| Movement.AgentTurnsKeepListed | abm-final.py:199-216 | the agent loop keeps every colonizing agent listed by its particle |
| Movement.WalkKeepsListed | abm-final.py:190-216 | `random_walk_and_adherence` keeps every colonizing agent listed by its particle |
| Plastisphere.Tick | abm-final.py:260-281 | a tick keeps every reference in range |
| Plastisphere.TickPreservesInv | abm-final.py:260-281 | every tick keeps the invariant: caps, lists free of repeats, attachment facts, size and EPS bounds |
| Plastisphere.TickKeepsListed | abm-final.py:260-281 | every tick keeps each colonizing agent, live or dead, among the occupants of the live particle it is attached to |
| Plastisphere.Populate | abm-final.py:90-96 | the k-th initial agent is a free agent of the k-th drawn type with the mapped EPS rate |
| Plastisphere.Scatter | abm-final.py:98-104 | the k-th initial particle has size 1, no EPS, no occupants, and the hydrolysis capability of its type |
| Plastisphere.Range | abm-final.py:91-104 | the initial live lists hold the identities 0 .. n-1 in creation order |
| Plastisphere.Initial | abm-final.py:78-104 | one agent and one live identity per agent draw, one particle and one live identity per particle draw; no agent is colonizing and no particle has occupants or is colonized |
| Plastisphere.InitialInv | abm-final.py:78-104 | the initial population satisfies the invariant and the converse link |
| Plastisphere.ShrinkSize | abm-final.py:147-153 | the occupant loop computes the size that the degrader count determines |
| Plastisphere.Simulation.Initialize | abm-final.py:78-104 | `initialize` creates 30 agents and 3 particles from the draws, derives the three environment adjustments, starts the clock at 0 and establishes the invariant and the converse link |
| Plastisphere.Simulation.CreateAgents | abm-final.py:90-96 | the agent loop appends one new agent per draw, in order |
| Plastisphere.Simulation.CreateMicroplastics | abm-final.py:98-104 | the particle loop appends one new particle per draw, in order |
| Plastisphere.Simulation.DeathProcess | abm-final.py:234-242 | the iterate-and-remove loop leaves exactly the survivors of the death pass, with the skip |
| Plastisphere.Simulation.IntroduceNewAgents | abm-final.py:218-224 | the method performs the agent introduction step |
| Plastisphere.Simulation.IntroduceNewMicroplastics | abm-final.py:226-232 | the method performs the particle introduction step |
| Plastisphere.Simulation.DriftParticles | abm-final.py:193-197 | the particle loop performs the drift of the live particles |
| Plastisphere.Simulation.UpdateAgentPositionWithPlastic | abm-final.py:164-169 | a colonizing agent takes its particle's position plus the jitter on both axes; a free agent is unchanged |
| Plastisphere.Simulation.FindAttracting | abm-final.py:206-213 | the scan loop finds the first live particle that is close enough and accepts the agent |
| Plastisphere.Simulation.WalkFreeAgent | abm-final.py:200-213 | walk, clamp, scan and attach perform a free agent's turn |
| Plastisphere.Simulation.TakeTurn | abm-final.py:199-216 | the method performs one agent's turn |
| Plastisphere.Simulation.RandomWalkAndAdherence | abm-final.py:190-216 | the method performs the drift followed by every live agent's turn, in list order |
| Plastisphere.Simulation.ProduceEps | abm-final.py:60-63 | the method performs one agent's gated secretion |
| Plastisphere.Simulation.ProduceOccupants | abm-final.py:275-276 | the occupant loop performs secretion by a particle's occupants, in order |
| Plastisphere.Simulation.SecreteEps | abm-final.py:273-276 | the nested loop performs the secretion phase |
| Plastisphere.Simulation.DispersionBasedOnEps | abm-final.py:244-258 | the loop with early return performs dispersion at the first ready particle only |
| Plastisphere.Simulation.ShrinkParticle | abm-final.py:146-153 | the particle's size becomes the shrunk size; nothing else changes |
| Plastisphere.Simulation.ReleaseOccupants | abm-final.py:159-162 | the release loop frees exactly the particle's occupants |
| Plastisphere.Simulation.DegradeParticle | abm-final.py:144-162 | one iteration of `degrade_plastics` on particle `p` |
| Plastisphere.Simulation.DegradePlastics | abm-final.py:140-162 | the loop over the copy of the live list performs the degradation pass |
| Plastisphere.Simulation.RunPhases | abm-final.py:264-281 | the phases run in the order of `update` and perform the tick |
| Plastisphere.Simulation.Update | abm-final.py:260-281 | `update` advances the clock by one, performs the tick and keeps the invariant and the converse link |

## Left out

- `observe` (abm-final.py:107-138) and the GUI launch (abm-final.py:283) are
  plotting and user interface. They change no model state.
- Random number generation is not modelled. Every draw is a parameter:
  `random()`, `uniform`, `np.random.uniform` and `np.random.choice`.
  - No property depends on the draws' ranges, so the model does not constrain
    them.
  - The draw lists only need to be long enough (`DrawsFit`). Draws beyond
    what the tick consumes are ignored.
- Floating-point arithmetic is modelled as exact real arithmetic. Rounding in
  the size products and the EPS sums is not captured.
- Temperature and nutrient availability are constructor parameters. The
  original fixes them to 15 and 2 in `initialize`.
- Organism and plastic types are enumerations rather than strings. Agent and
  particle objects are arena identities rather than references.
- Plastisphere.Simulation.ShrinkParticle: multiplies the size in a local
  variable and writes it to the particle once. The original multiplies the
  field in place once per degrader. Nothing reads the size between those
  writes, so the final state is the same.
