/** Succession policy: whether an agent may join a particle's biofilm
    (pioneer, then secondary colonizer, then degrader). */
module Succession {
  import opened Entities

  /** The occupant scan: true at the first occupant of type `t`. */
  function Hosts(occupants: seq<AgentId>, arena: seq<Agent>, t: OrganismType): (r: bool)
    requires Below(occupants, |arena|)
    ensures r <==> exists k :: 0 <= k < |occupants| && arena[occupants[k]].organismType == t
  {
    if occupants == [] then false
    else if arena[occupants[0]].organismType == t then true
    else
      var r := Hosts(occupants[1..], arena, t);
      assert forall k :: 1 <= k < |occupants| ==> occupants[k] == occupants[1..][k - 1];
      r
  }

  /** `adhere_to_plastic`: eroded particles refuse everyone; a pioneer is always
      accepted; a secondary colonizer needs EPS at the irreversible threshold
      and a pioneer already present; a degrader needs a secondary colonizer
      already present; nothing else is accepted. */
  function AdhereToPlastic(t: OrganismType, m: Microplastic, arena: seq<Agent>): (r: bool)
    requires Below(m.organisms, |arena|)
    ensures r <==>
      && m.size > MinDegradableSize
      && (|| t == PioneerColonizer
          || (&& t == SecondaryColonizer
              && m.epsConcentration >= EpsIrreversibleThreshold
              && exists k :: 0 <= k < |m.organisms| && arena[m.organisms[k]].organismType == PioneerColonizer)
          || (&& t == Degrader
              && exists k :: 0 <= k < |m.organisms| && arena[m.organisms[k]].organismType == SecondaryColonizer))
  {
    if m.size <= MinDegradableSize then false
    else if t == PioneerColonizer then true
    else if t == SecondaryColonizer && m.epsConcentration >= EpsIrreversibleThreshold then
      Hosts(m.organisms, arena, PioneerColonizer)
    else if t == Degrader then
      Hosts(m.organisms, arena, SecondaryColonizer)
    else false
  }
}
