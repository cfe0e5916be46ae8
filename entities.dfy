/** Entity model of the plastisphere simulation: the model constants, the two
    type mappings, the Agent and Microplastic records and the whole population
    (an `Ecosystem`) with the invariant every simulation step keeps.

    Identity: every agent and every particle ever created lives in an arena
    (a sequence that only grows); its index there is its identity.  The live
    lists `agents` and `microplastics` hold identities, in list order, and a
    particle's `organisms` list holds agent identities, in colonization order.
    Dead agents and removed particles stay in the arenas, as the objects stay
    reachable in the original program. */
module Entities {

  datatype Option<T> = None | Some(value: T)

  // Constants of the model (abm-final.py lines 6-15)
  const DegradationRate: real := 0.98
  const DeathRate: real := 0.002
  const AttachedDeathRate: real := 0.001
  const MinDegradableSize: real := 0.05
  const AgentIntroRate: real := 0.07
  const MicroplasticIntroRate: real := 0.05
  const MaxAgents: nat := 110
  const MaxMicroplastics: nat := 8
  const EpsIrreversibleThreshold: real := 10.0
  const EpsDispersionThreshold: real := 20.0

  /** The largest value of the organism-to-EPS-rate mapping. */
  const MaxEpsRate: real := 0.5

  datatype OrganismType = PioneerColonizer | SecondaryColonizer | Degrader

  datatype PlasticType = PUR | PLA | PET | PE | PP | PS | PVC

  /** The organism-type-to-EPS-rate mapping. */
  function EpsRate(t: OrganismType): (r: real)
    ensures 0.0 <= r <= MaxEpsRate
    ensures r > 0.0 <==> t == PioneerColonizer
  {
    match t
    case PioneerColonizer => 0.5
    case SecondaryColonizer => 0.0
    case Degrader => 0.0
  }

  /** The plastic-type-to-hydrolysis-capability mapping. */
  function Hydrolyzable(p: PlasticType): (r: bool)
    ensures r <==> p in {PUR, PLA, PET}
  {
    match p
    case PUR => true
    case PLA => true
    case PET => true
    case PE => false
    case PP => false
    case PS => false
    case PVC => false
  }

  type AgentId = nat
  type PlasticId = nat

  /** A microorganism. */
  datatype Agent = Agent(
    organismType: OrganismType,
    epsProductionRate: real,
    isColonizing: bool,
    plasticAttached: Option<PlasticId>,
    x: real,
    y: real)

  /** A plastic particle. */
  datatype Microplastic = Microplastic(
    size: real,
    hydrolyzable: bool,
    plasticType: PlasticType,
    epsConcentration: real,
    isColonized: bool,
    organisms: seq<AgentId>,
    x: real,
    y: real)

  /** A freshly created agent: free-floating, with the mapped EPS rate. */
  function NewAgent(t: OrganismType, x: real, y: real): (a: Agent)
    ensures !a.isColonizing && a.plasticAttached == None
    ensures a.organismType == t && a.epsProductionRate == EpsRate(t) && a.x == x && a.y == y
    ensures AgentOk(a, 0)
  {
    Agent(t, EpsRate(t), false, None, x, y)
  }

  /** A freshly created particle: size 1, no EPS, no occupants. */
  function NewMicroplastic(p: PlasticType, x: real, y: real): (m: Microplastic)
    ensures m.size == 1.0 && m.epsConcentration == 0.0 && m.organisms == [] && !m.isColonized
    ensures m.plasticType == p && m.hydrolyzable == Hydrolyzable(p) && m.x == x && m.y == y
    ensures PlasticOk(m, 0) && BoundedAt(m)
  {
    Microplastic(1.0, Hydrolyzable(p), p, 0.0, false, [], x, y)
  }

  /** The whole population: both arenas and both live lists. */
  datatype Ecosystem = Ecosystem(
    arena: seq<Agent>,
    plastics: seq<Microplastic>,
    agents: seq<AgentId>,
    microplastics: seq<PlasticId>)

  /** Every identity in `ids` refers to an element of an arena of size `n`. */
  predicate Below(ids: seq<nat>, n: nat)
  {
    forall k :: 0 <= k < |ids| ==> ids[k] < n
  }

  predicate NoDup<T(==)>(s: seq<T>)
  {
    forall i, j :: 0 <= i < j < |s| ==> s[i] != s[j]
  }

  predicate AgentOk(a: Agent, plasticCount: nat)
  {
    && (a.isColonizing ==> a.plasticAttached.Some?)
    && (a.plasticAttached.Some? ==> a.plasticAttached.value < plasticCount)
    && a.epsProductionRate == EpsRate(a.organismType)
  }

  predicate PlasticOk(m: Microplastic, agentCount: nat)
  {
    && Below(m.organisms, agentCount)
    && m.hydrolyzable == Hydrolyzable(m.plasticType)
  }

  /** Every reference held by an arena record points into the other arena,
      and every record agrees with the two type mappings. */
  predicate ArenasOk(arena: seq<Agent>, plastics: seq<Microplastic>)
  {
    && (forall k :: 0 <= k < |arena| ==> AgentOk(arena[k], |plastics|))
    && (forall q :: 0 <= q < |plastics| ==> PlasticOk(plastics[q], |arena|))
  }

  /** The arenas are consistent and the live lists point into them. */
  predicate WellFormed(e: Ecosystem)
  {
    && Below(e.agents, |e.arena|)
    && Below(e.microplastics, |e.plastics|)
    && ArenasOk(e.arena, e.plastics)
  }

  /** The attachment facts the code maintains for a live particle `p`: its
      occupant list has no repeats, it is colonized exactly when it has
      occupants, and every occupant is colonizing and attached to `p`. */
  predicate LinkedAt(e: Ecosystem, p: PlasticId)
    requires WellFormed(e) && p < |e.plastics|
  {
    var m := e.plastics[p];
    && NoDup(m.organisms)
    && (m.isColonized <==> m.organisms != [])
    && (forall k :: 0 <= k < |m.organisms| ==>
          e.arena[m.organisms[k]].isColonizing && e.arena[m.organisms[k]].plasticAttached == Some(p))
  }

  predicate Linked(e: Ecosystem)
    requires WellFormed(e)
  {
    forall i :: 0 <= i < |e.microplastics| ==> LinkedAt(e, e.microplastics[i])
  }

  /** A live particle is larger than the removal threshold and its EPS lies
      in [0, 20.5): production is gated at 20 and adds at most 0.5. */
  predicate BoundedAt(m: Microplastic)
  {
    && m.size > MinDegradableSize
    && 0.0 <= m.epsConcentration < EpsDispersionThreshold + MaxEpsRate
  }

  /** The invariant every step of a tick preserves. */
  predicate Inv(e: Ecosystem)
  {
    && WellFormed(e)
    && NoDup(e.agents)
    && NoDup(e.microplastics)
    && |e.agents| <= MaxAgents
    && |e.microplastics| <= MaxMicroplastics
    && Linked(e)
    && (forall i :: 0 <= i < |e.microplastics| ==> BoundedAt(e.plastics[e.microplastics[i]]))
  }

  /** The converse of `LinkedAt` for agent `b`: if it is colonizing, it is
      attached to a live particle that lists it among its occupants. */
  predicate ListedAt(e: Ecosystem, b: AgentId)
    requires b < |e.arena|
  {
    var a := e.arena[b];
    a.isColonizing ==>
      && a.plasticAttached.Some?
      && var p := a.plasticAttached.value;
      && p < |e.plastics|
      && p in e.microplastics
      && b in e.plastics[p].organisms
  }

  /** Every colonizing agent of the arena, live or dead, is listed by the
      live particle it is attached to. */
  predicate Listed(e: Ecosystem)
  {
    forall b :: 0 <= b < |e.arena| ==> ListedAt(e, b)
  }

  /** Python's `list.remove(x)`: drop the first occurrence of `x`. */
  function RemoveFirst<T(==)>(s: seq<T>, x: T): (r: seq<T>)
    ensures x !in s ==> r == s
    ensures x in s ==> |r| == |s| - 1
    ensures forall k :: 0 <= k < |r| ==> r[k] in s
  {
    if s == [] then []
    else if s[0] == x then s[1..]
    else [s[0]] + RemoveFirst(s[1..], x)
  }

  lemma {:induction false} NoDupRemoveAt<T>(s: seq<T>, k: nat)
    requires NoDup(s) && k < |s|
    ensures RemoveFirst(s, s[k]) == s[..k] + s[k + 1..]
    ensures NoDup(s[..k] + s[k + 1..])
  {
    if k > 0 {
      assert s[0] != s[k];
      assert NoDup(s[1..]);
      NoDupRemoveAt(s[1..], k - 1);
      assert s[1..][k - 1] == s[k];
      assert s[..k] == [s[0]] + s[1..][..k - 1];
      assert s[k + 1..] == s[1..][k..];
    }
    var r := s[..k] + s[k + 1..];
    forall i, j | 0 <= i < j < |r| ensures r[i] != r[j] {
      var i' := if i < k then i else i + 1;
      var j' := if j < k then j else j + 1;
      assert r[i] == s[i'] && r[j] == s[j'];
    }
  }

  lemma {:induction false} NoDupPrepend<T>(x: T, s: seq<T>)
    requires NoDup(s) && x !in s
    ensures NoDup([x] + s)
  {
    var r := [x] + s;
    forall i, j | 0 <= i < j < |r| ensures r[i] != r[j] {
      assert r[j] == s[j - 1];
      if i > 0 { assert r[i] == s[i - 1]; }
    }
  }

  lemma {:induction false} NoDupAppend<T>(s: seq<T>, x: T)
    requires NoDup(s) && x !in s
    ensures NoDup(s + [x])
  {
    var r := s + [x];
    forall i, j | 0 <= i < j < |r| ensures r[i] != r[j] {
      assert r[i] == s[i];
      if j < |s| { assert r[j] == s[j]; }
    }
  }

  lemma {:induction false} NoDupHead<T>(s: seq<T>)
    requires NoDup(s) && s != []
    ensures s[0] !in s[1..] && NoDup(s[1..])
  {
  }

  /** A second update of the same position overwrites the first. */
  lemma {:induction false} UpdateTwice<T>(s: seq<T>, i: nat, a: T, b: T)
    requires i < |s|
    ensures s[i := a][i := b] == s[i := b]
  {
  }

  lemma {:induction false} NoDupPrefix<T>(s: seq<T>, n: nat)
    requires NoDup(s) && n <= |s|
    ensures NoDup(s[..n])
    ensures forall k :: n <= k < |s| ==> s[k] !in s[..n]
  {
  }
}
