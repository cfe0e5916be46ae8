/** Movement and adherence: particles drift and are clamped to the unit
    square; free agents walk, are clamped, and attach to the first particle in
    list order that is close enough and whose succession rule accepts them;
    colonizing agents follow their particle with a jitter. */
module Movement {
  import opened Entities
  import opened Succession

  /** One walk step: the two `uniform` draws of a particle or a free agent. */
  datatype Offset = Offset(dx: real, dy: real)

  /** The draws of one agent's turn: its walk step if it is free, the
      jitter (one draw, shared by both axes) if it is colonizing. */
  datatype AgentMove = AgentMove(walk: Offset, jitter: real)

  /** The clamp to [0, 1]: values inside are kept, values outside go to the
      nearer bound. */
  function Clamp(v: real): (r: real)
    ensures 0.0 <= r <= 1.0
    ensures 0.0 <= v <= 1.0 ==> r == v
    ensures r == v || (v > 1.0 && r == 1.0) || (v < 0.0 && r == 0.0)
  {
    if v > 1.0 then 1.0 else if v < 0.0 then 0.0 else v
  }

  predicate InUnitSquare(x: real, y: real)
  {
    0.0 <= x <= 1.0 && 0.0 <= y <= 1.0
  }

  /** Only the position of a particle changes, and it ends in the unit square. */
  function Drifted(m: Microplastic, step: Offset): (r: Microplastic)
    ensures r == m.(x := r.x, y := r.y)
    ensures InUnitSquare(r.x, r.y)
  {
    m.(x := Clamp(m.x + step.dx), y := Clamp(m.y + step.dy))
  }

  /** The particle half of `random_walk_and_adherence`: the live particles
      drift in list order, `steps[i]` for the i-th. */
  function DriftAll(plastics: seq<Microplastic>, live: seq<PlasticId>, steps: seq<Offset>): (r: seq<Microplastic>)
    requires Below(live, |plastics|) && |steps| >= |live|
    ensures |r| == |plastics|
    decreases |live|
  {
    if live == [] then plastics
    else DriftAll(plastics[live[0] := Drifted(plastics[live[0]], steps[0])], live[1..], steps[1..])
  }

  lemma {:induction false} DriftAllMovesLive(plastics: seq<Microplastic>, live: seq<PlasticId>, steps: seq<Offset>)
    requires Below(live, |plastics|) && |steps| >= |live| && NoDup(live)
    ensures var r := DriftAll(plastics, live, steps);
      && (forall i :: 0 <= i < |live| ==> r[live[i]] == Drifted(plastics[live[i]], steps[i]))
      && (forall q :: 0 <= q < |plastics| && q !in live ==> r[q] == plastics[q])
    decreases |live|
  {
    if live != [] {
      var next := plastics[live[0] := Drifted(plastics[live[0]], steps[0])];
      assert NoDup(live[1..]);
      DriftAllMovesLive(next, live[1..], steps[1..]);
      var r := DriftAll(plastics, live, steps);
      assert r == DriftAll(next, live[1..], steps[1..]);
      forall i | 0 <= i < |live| ensures r[live[i]] == Drifted(plastics[live[i]], steps[i]) {
        if i > 0 {
          assert live[1..][i - 1] == live[i] && steps[1..][i - 1] == steps[i];
          assert live[i] != live[0];
        } else {
          assert forall j :: 0 <= j < |live[1..]| ==> live[1..][j] != live[0];
        }
      }
      forall q | 0 <= q < |plastics| && q !in live ensures r[q] == plastics[q] {
        assert q !in live[1..];
      }
    }
  }

  /** Squared distance below the proximity threshold. */
  predicate Close(x: real, y: real, m: Microplastic, threshold: real)
  {
    (x - m.x) * (x - m.x) + (y - m.y) * (y - m.y) < threshold
  }

  /** A particle attracts an agent of type `t` at (x, y): it is close and its
      succession rule accepts the agent. */
  predicate Accepts(e: Ecosystem, t: OrganismType, x: real, y: real, p: PlasticId, threshold: real)
    requires WellFormed(e) && p < |e.plastics|
  {
    assert PlasticOk(e.plastics[p], |e.arena|);
    Close(x, y, e.plastics[p], threshold) && AdhereToPlastic(t, e.plastics[p], e.arena)
  }

  /** The adherence scan: the position in `cands` of the first particle that
      attracts the agent; refusals and distant particles are passed over. */
  function FirstAccepting(e: Ecosystem, t: OrganismType, x: real, y: real, cands: seq<PlasticId>, threshold: real): (r: Option<nat>)
    requires WellFormed(e) && Below(cands, |e.plastics|)
    ensures r.Some? ==> r.value < |cands|
    decreases |cands|
  {
    if cands == [] then None
    else if Accepts(e, t, x, y, cands[0], threshold) then Some(0)
    else
      assert Below(cands[1..], |e.plastics|) by {
        assert forall j :: 1 <= j < |cands| ==> cands[j] == cands[1..][j - 1];
      }
      match FirstAccepting(e, t, x, y, cands[1..], threshold)
      case None => None
      case Some(j) => Some(j + 1)
  }

  /** The scan returns the position of the first attracting candidate, and
      nothing exactly when no candidate attracts the agent. */
  lemma {:induction false} FirstAcceptingIsFirst(e: Ecosystem, t: OrganismType, x: real, y: real, cands: seq<PlasticId>, threshold: real)
    requires WellFormed(e) && Below(cands, |e.plastics|)
    ensures
      var r := FirstAccepting(e, t, x, y, cands, threshold);
      && (r.Some? ==> Accepts(e, t, x, y, cands[r.value], threshold))
      && (r.Some? ==> forall j :: 0 <= j < r.value ==> !Accepts(e, t, x, y, cands[j], threshold))
      && (r.None? <==> forall j :: 0 <= j < |cands| ==> !Accepts(e, t, x, y, cands[j], threshold))
    decreases |cands|
  {
    if cands != [] && !Accepts(e, t, x, y, cands[0], threshold) {
      assert forall j :: 1 <= j < |cands| ==> cands[j] == cands[1..][j - 1];
      FirstAcceptingIsFirst(e, t, x, y, cands[1..], threshold);
    }
  }

  /** Agent `a` placed at (x, y); nothing else changes. */
  function Moved(e: Ecosystem, a: AgentId, x: real, y: real): (r: Ecosystem)
    requires WellFormed(e) && a < |e.arena|
    ensures WellFormed(r)
    ensures r.agents == e.agents && r.microplastics == e.microplastics && r.plastics == e.plastics
    ensures |r.arena| == |e.arena|
  {
    var r := e.(arena := e.arena[a := e.arena[a].(x := x, y := y)]);
    assert ArenasOk(r.arena, r.plastics) by {
      forall q | 0 <= q < |r.plastics| ensures PlasticOk(r.plastics[q], |r.arena|) {
        assert PlasticOk(e.plastics[q], |e.arena|);
      }
      forall k | 0 <= k < |r.arena| ensures AgentOk(r.arena[k], |r.plastics|) {
        assert AgentOk(e.arena[k], |e.plastics|);
      }
    }
    r
  }

  /** Agent `a` joins particle `p`: it becomes colonizing and attached to
      `p`, and `p` becomes colonized with `a` appended to its occupants. */
  function Joined(e: Ecosystem, a: AgentId, p: PlasticId): (r: Ecosystem)
    requires WellFormed(e) && a < |e.arena| && p < |e.plastics|
    ensures WellFormed(r)
    ensures r.agents == e.agents && r.microplastics == e.microplastics
    ensures |r.arena| == |e.arena| && |r.plastics| == |e.plastics|
  {
    var m := e.plastics[p];
    var r := e.(arena := e.arena[a := e.arena[a].(isColonizing := true, plasticAttached := Some(p))],
                plastics := e.plastics[p := m.(isColonized := true, organisms := m.organisms + [a])]);
    assert ArenasOk(r.arena, r.plastics) by {
      forall q | 0 <= q < |r.plastics| ensures PlasticOk(r.plastics[q], |r.arena|) {
        assert PlasticOk(e.plastics[q], |e.arena|);
      }
      forall k | 0 <= k < |r.arena| ensures AgentOk(r.arena[k], |r.plastics|) {
        assert AgentOk(e.arena[k], |e.plastics|);
      }
    }
    r
  }

  /** Acceptance does not depend on where the agents stand: moving an agent
      leaves the scan's answer unchanged. */
  lemma {:induction false} ScanIgnoresMove(e: Ecosystem, a: AgentId, ax: real, ay: real,
                                           t: OrganismType, x: real, y: real, cands: seq<PlasticId>, threshold: real)
    requires WellFormed(e) && a < |e.arena| && Below(cands, |e.plastics|)
    ensures FirstAccepting(Moved(e, a, ax, ay), t, x, y, cands, threshold) == FirstAccepting(e, t, x, y, cands, threshold)
    decreases |cands|
  {
    if cands != [] {
      var e1 := Moved(e, a, ax, ay);
      var m := e.plastics[cands[0]];
      assert PlasticOk(m, |e.arena|);
      assert forall b :: 0 <= b < |e.arena| ==> e1.arena[b].organismType == e.arena[b].organismType;
      assert Accepts(e1, t, x, y, cands[0], threshold) == Accepts(e, t, x, y, cands[0], threshold);
      assert Below(cands[1..], |e.plastics|) by {
        assert forall j :: 1 <= j < |cands| ==> cands[j] == cands[1..][j - 1];
      }
      ScanIgnoresMove(e, a, ax, ay, t, x, y, cands[1..], threshold);
    }
  }

  /** One agent's turn of `random_walk_and_adherence`, including
      `update_agent_position_with_plastic` for a colonizing agent. */
  function AgentTurn(e: Ecosystem, a: AgentId, mv: AgentMove, threshold: real): (r: Ecosystem)
    requires WellFormed(e) && a < |e.arena|
    ensures WellFormed(r)
    ensures r.agents == e.agents && r.microplastics == e.microplastics
    ensures |r.arena| == |e.arena| && |r.plastics| == |e.plastics|
  {
    var ag := e.arena[a];
    assert AgentOk(ag, |e.plastics|);
    if !ag.isColonizing then
      var x := Clamp(ag.x + mv.walk.dx);
      var y := Clamp(ag.y + mv.walk.dy);
      match FirstAccepting(e, ag.organismType, x, y, e.microplastics, threshold)
      case None => Moved(e, a, x, y)
      case Some(i) => Joined(Moved(e, a, x, y), a, e.microplastics[i])
    else
      var m := e.plastics[ag.plasticAttached.value];
      Moved(e, a, m.x + mv.jitter, m.y + mv.jitter)
  }

  /** The turn of a free agent that no particle accepts. */
  lemma {:induction false} FreeAgentStays(e: Ecosystem, a: AgentId, mv: AgentMove, threshold: real, x: real, y: real)
    requires WellFormed(e) && a < |e.arena| && !e.arena[a].isColonizing
    requires x == Clamp(e.arena[a].x + mv.walk.dx) && y == Clamp(e.arena[a].y + mv.walk.dy)
    requires FirstAccepting(e, e.arena[a].organismType, x, y, e.microplastics, threshold).None?
    ensures AgentTurn(e, a, mv, threshold) == Moved(e, a, x, y)
  {
  }

  /** The turn of a free agent first accepted by the `i`-th live particle. */
  lemma {:induction false} FreeAgentJoins(e: Ecosystem, a: AgentId, mv: AgentMove, threshold: real, x: real, y: real, i: nat)
    requires WellFormed(e) && a < |e.arena| && !e.arena[a].isColonizing
    requires x == Clamp(e.arena[a].x + mv.walk.dx) && y == Clamp(e.arena[a].y + mv.walk.dy)
    requires FirstAccepting(e, e.arena[a].organismType, x, y, e.microplastics, threshold) == Some(i)
    ensures i < |e.microplastics|
    ensures AgentTurn(e, a, mv, threshold) == Joined(Moved(e, a, x, y), a, e.microplastics[i])
  {
  }

  /** A particle keeps everything but its colonization status and occupants. */
  predicate SameParticle(m: Microplastic, m': Microplastic)
  {
    m' == m.(isColonized := m'.isColonized, organisms := m'.organisms)
  }

  /** A free agent walks, is clamped into the unit square and either attaches
      to the first particle that attracts it (being appended to that
      particle's occupants, which becomes colonized) or stays free; no other
      agent and no other particle changes, and no particle moves. */
  lemma {:induction false} FreeAgentTurn(e: Ecosystem, a: AgentId, mv: AgentMove, threshold: real)
    requires WellFormed(e) && a < |e.arena| && !e.arena[a].isColonizing
    ensures
      var ag := e.arena[a];
      var x := Clamp(ag.x + mv.walk.dx);
      var y := Clamp(ag.y + mv.walk.dy);
      var r := AgentTurn(e, a, mv, threshold);
      && InUnitSquare(r.arena[a].x, r.arena[a].y)
      && r.arena[a].x == x && r.arena[a].y == y
      && (forall b :: 0 <= b < |e.arena| && b != a ==> r.arena[b] == e.arena[b])
      && (forall q :: 0 <= q < |e.plastics| ==> SameParticle(e.plastics[q], r.plastics[q]))
      && match FirstAccepting(e, ag.organismType, x, y, e.microplastics, threshold)
         case None =>
           && r.arena[a] == ag.(x := x, y := y)
           && r.plastics == e.plastics
         case Some(i) =>
           var p := e.microplastics[i];
           && r.arena[a] == ag.(isColonizing := true, plasticAttached := Some(p), x := x, y := y)
           && r.plastics[p].isColonized
           && r.plastics[p].organisms == e.plastics[p].organisms + [a]
           && (forall q :: 0 <= q < |e.plastics| && q != p ==> r.plastics[q] == e.plastics[q])
  {
  }

  /** An agent that attaches is accepted by the succession rule of its new
      particle, and is closer to it than the proximity threshold. */
  lemma {:induction false} AttachmentObeysSuccession(e: Ecosystem, a: AgentId, mv: AgentMove, threshold: real)
    requires WellFormed(e) && a < |e.arena| && !e.arena[a].isColonizing
    requires AgentTurn(e, a, mv, threshold).arena[a].isColonizing
    ensures
      var r := AgentTurn(e, a, mv, threshold);
      var t := e.arena[a].organismType;
      && r.arena[a].plasticAttached.Some?
      && var p := r.arena[a].plasticAttached.value;
      && p in e.microplastics
      && p < |e.plastics|
      && var m := e.plastics[p];
      && Close(r.arena[a].x, r.arena[a].y, m, threshold)
      && m.size > MinDegradableSize
      && (t == SecondaryColonizer ==>
            && m.epsConcentration >= EpsIrreversibleThreshold
            && exists k :: 0 <= k < |m.organisms| && e.arena[m.organisms[k]].organismType == PioneerColonizer)
      && (t == Degrader ==>
            exists k :: 0 <= k < |m.organisms| && e.arena[m.organisms[k]].organismType == SecondaryColonizer)
  {
    var ag := e.arena[a];
    var x := Clamp(ag.x + mv.walk.dx);
    var y := Clamp(ag.y + mv.walk.dy);
    FirstAcceptingIsFirst(e, ag.organismType, x, y, e.microplastics, threshold);
    match FirstAccepting(e, ag.organismType, x, y, e.microplastics, threshold)
    case None =>
      assert false;
    case Some(i) =>
      var p := e.microplastics[i];
      assert AgentTurn(e, a, mv, threshold).arena[a] == ag.(isColonizing := true, plasticAttached := Some(p), x := x, y := y);
      assert Accepts(e, ag.organismType, x, y, p, threshold);
      assert PlasticOk(e.plastics[p], |e.arena|);
  }

  /** A colonizing agent takes its particle's position plus the shared jitter
      on both axes; nothing else changes. */
  lemma {:induction false} ColonizingAgentTurn(e: Ecosystem, a: AgentId, mv: AgentMove, threshold: real)
    requires WellFormed(e) && a < |e.arena| && e.arena[a].isColonizing
    ensures e.arena[a].plasticAttached.Some? && e.arena[a].plasticAttached.value < |e.plastics|
    ensures
      var ag := e.arena[a];
      var m := e.plastics[ag.plasticAttached.value];
      AgentTurn(e, a, mv, threshold) == e.(arena := e.arena[a := ag.(x := m.x + mv.jitter, y := m.y + mv.jitter)])
  {
    assert AgentOk(e.arena[a], |e.plastics|);
  }

  /** Turns of the agents in `turns`, in list order, `moves[k]` for the k-th. */
  function AgentTurns(e: Ecosystem, turns: seq<AgentId>, moves: seq<AgentMove>, threshold: real): (r: Ecosystem)
    requires WellFormed(e) && Below(turns, |e.arena|) && |moves| >= |turns|
    ensures WellFormed(r)
    ensures r.agents == e.agents && r.microplastics == e.microplastics
    ensures |r.arena| == |e.arena| && |r.plastics| == |e.plastics|
    decreases |turns|
  {
    if turns == [] then e
    else AgentTurns(AgentTurn(e, turns[0], moves[0], threshold), turns[1..], moves[1..], threshold)
  }

  /** `random_walk_and_adherence`: the particles drift first, then every live
      agent takes its turn against the moved particles. */
  function Walked(e: Ecosystem, steps: seq<Offset>, moves: seq<AgentMove>, threshold: real): (r: Ecosystem)
    requires WellFormed(e) && |steps| >= |e.microplastics| && |moves| >= |e.agents|
    ensures WellFormed(r)
    ensures r.agents == e.agents && r.microplastics == e.microplastics
    ensures |r.arena| == |e.arena| && |r.plastics| == |e.plastics|
  {
    var drifted := DriftAll(e.plastics, e.microplastics, steps);
    DriftAllKeepsArenas(e.plastics, e.microplastics, steps, e.arena);
    AgentTurns(e.(plastics := drifted), e.agents, moves, threshold)
  }

  /** Drift changes positions only. */
  lemma {:induction false} DriftAllOnlyMoves(plastics: seq<Microplastic>, live: seq<PlasticId>, steps: seq<Offset>)
    requires Below(live, |plastics|) && |steps| >= |live|
    ensures var r := DriftAll(plastics, live, steps);
      forall q :: 0 <= q < |plastics| ==> r[q] == plastics[q].(x := r[q].x, y := r[q].y)
    decreases |live|
  {
    if live != [] {
      DriftAllOnlyMoves(plastics[live[0] := Drifted(plastics[live[0]], steps[0])], live[1..], steps[1..]);
    }
  }

  lemma {:induction false} DriftAllKeepsArenas(plastics: seq<Microplastic>, live: seq<PlasticId>, steps: seq<Offset>, arena: seq<Agent>)
    requires Below(live, |plastics|) && |steps| >= |live| && ArenasOk(arena, plastics)
    ensures ArenasOk(arena, DriftAll(plastics, live, steps))
  {
    var r := DriftAll(plastics, live, steps);
    DriftAllOnlyMoves(plastics, live, steps);
    forall q | 0 <= q < |r| ensures PlasticOk(r[q], |arena|) {
      assert PlasticOk(plastics[q], |arena|);
    }
    forall k | 0 <= k < |arena| ensures AgentOk(arena[k], |r|) {
      assert AgentOk(arena[k], |plastics|);
    }
  }

  /** An agent outside `turns` is untouched by them, and no particle moves. */
  lemma {:induction false} AgentTurnsFrame(e: Ecosystem, turns: seq<AgentId>, moves: seq<AgentMove>, threshold: real)
    requires WellFormed(e) && Below(turns, |e.arena|) && |moves| >= |turns|
    ensures var r := AgentTurns(e, turns, moves, threshold);
      && (forall b :: 0 <= b < |e.arena| && b !in turns ==> r.arena[b] == e.arena[b])
      && (forall q :: 0 <= q < |e.plastics| ==> SameParticle(e.plastics[q], r.plastics[q]))
    decreases |turns|
  {
    if turns != [] {
      var a := turns[0];
      var e1 := AgentTurn(e, a, moves[0], threshold);
      AgentTurnOthers(e, a, moves[0], threshold);
      AgentTurnParticles(e, a, moves[0], threshold);
      AgentTurnsFrame(e1, turns[1..], moves[1..], threshold);
      forall b | 0 <= b < |e.arena| && b !in turns
        ensures AgentTurns(e, turns, moves, threshold).arena[b] == e.arena[b]
      {
        assert b !in turns[1..];
      }
    }
  }

  /** A turn changes no other agent. */
  lemma {:induction false} AgentTurnOthers(e: Ecosystem, a: AgentId, mv: AgentMove, threshold: real)
    requires WellFormed(e) && a < |e.arena|
    ensures forall b :: 0 <= b < |e.arena| && b != a ==> AgentTurn(e, a, mv, threshold).arena[b] == e.arena[b]
  {
  }

  /** A turn moves no particle and changes no particle's size or EPS. */
  lemma {:induction false} AgentTurnParticles(e: Ecosystem, a: AgentId, mv: AgentMove, threshold: real)
    requires WellFormed(e) && a < |e.arena|
    ensures forall q :: 0 <= q < |e.plastics| ==> SameParticle(e.plastics[q], AgentTurn(e, a, mv, threshold).plastics[q])
  {
  }

  /** A free agent ends its turn in the unit square. */
  lemma {:induction false} FreeAgentClamped(e: Ecosystem, a: AgentId, mv: AgentMove, threshold: real)
    requires WellFormed(e) && a < |e.arena| && !e.arena[a].isColonizing
    ensures InUnitSquare(AgentTurn(e, a, mv, threshold).arena[a].x, AgentTurn(e, a, mv, threshold).arena[a].y)
  {
  }

  /** Every live agent that was free when the walk began ends in the unit
      square. */
  lemma {:induction false} AgentTurnsClampFree(e: Ecosystem, turns: seq<AgentId>, moves: seq<AgentMove>, threshold: real)
    requires WellFormed(e) && Below(turns, |e.arena|) && |moves| >= |turns| && NoDup(turns)
    ensures var r := AgentTurns(e, turns, moves, threshold);
      forall k :: 0 <= k < |turns| && !e.arena[turns[k]].isColonizing ==>
        InUnitSquare(r.arena[turns[k]].x, r.arena[turns[k]].y)
    decreases |turns|
  {
    if turns != [] {
      var a := turns[0];
      var e1 := AgentTurn(e, a, moves[0], threshold);
      var r := AgentTurns(e, turns, moves, threshold);
      assert r == AgentTurns(e1, turns[1..], moves[1..], threshold);
      AgentTurnOthers(e, a, moves[0], threshold);
      if !e.arena[a].isColonizing {
        FreeAgentClamped(e, a, moves[0], threshold);
      }
      NoDupHead(turns);
      AgentTurnsClampFree(e1, turns[1..], moves[1..], threshold);
      AgentTurnsFrame(e1, turns[1..], moves[1..], threshold);
      forall k | 0 <= k < |turns| && !e.arena[turns[k]].isColonizing
        ensures InUnitSquare(r.arena[turns[k]].x, r.arena[turns[k]].y)
      {
        if k > 0 {
          assert turns[1..][k - 1] == turns[k] && turns[k] != a;
        }
      }
    }
  }

  /** After `random_walk_and_adherence` every live particle, and every live
      agent that was free when the walk began, is in the unit square. */
  lemma {:induction false} WalkClamps(e: Ecosystem, steps: seq<Offset>, moves: seq<AgentMove>, threshold: real)
    requires WellFormed(e) && NoDup(e.agents) && NoDup(e.microplastics)
    requires |steps| >= |e.microplastics| && |moves| >= |e.agents|
    ensures var r := Walked(e, steps, moves, threshold);
      && (forall i :: 0 <= i < |e.microplastics| ==>
            InUnitSquare(r.plastics[e.microplastics[i]].x, r.plastics[e.microplastics[i]].y))
      && (forall k :: 0 <= k < |e.agents| && !e.arena[e.agents[k]].isColonizing ==>
            InUnitSquare(r.arena[e.agents[k]].x, r.arena[e.agents[k]].y))
  {
    var drifted := DriftAll(e.plastics, e.microplastics, steps);
    DriftAllKeepsArenas(e.plastics, e.microplastics, steps, e.arena);
    DriftAllMovesLive(e.plastics, e.microplastics, steps);
    var e1 := e.(plastics := drifted);
    AgentTurnsFrame(e1, e.agents, moves, threshold);
    AgentTurnsClampFree(e1, e.agents, moves, threshold);
  }

  /** One turn keeps the invariant: a free agent occupies no live particle,
      so appending it keeps the occupant lists duplicate-free and attached. */
  lemma {:induction false} AgentTurnPreservesInv(e: Ecosystem, a: AgentId, mv: AgentMove, threshold: real)
    requires Inv(e) && a < |e.arena|
    ensures Inv(AgentTurn(e, a, mv, threshold))
  {
    var r := AgentTurn(e, a, mv, threshold);
    var ag := e.arena[a];
    if ag.isColonizing {
      ColonizingAgentTurn(e, a, mv, threshold);
      forall i | 0 <= i < |r.microplastics| ensures LinkedAt(r, r.microplastics[i]) {
        assert LinkedAt(e, e.microplastics[i]);
      }
    } else {
      FreeAgentTurn(e, a, mv, threshold);
      forall i | 0 <= i < |r.microplastics|
        ensures LinkedAt(r, r.microplastics[i]) && BoundedAt(r.plastics[r.microplastics[i]])
      {
        var q := e.microplastics[i];
        assert LinkedAt(e, q) && BoundedAt(e.plastics[q]);
        var occ := e.plastics[q].organisms;
        assert a !in occ;
        if r.plastics[q] != e.plastics[q] {
          assert r.plastics[q].organisms == occ + [a];
          NoDupAppend(occ, a);
          var occ' := occ + [a];
          forall k | 0 <= k < |occ'|
            ensures r.arena[occ'[k]].isColonizing && r.arena[occ'[k]].plasticAttached == Some(q)
          {
            if k < |occ| { assert occ'[k] == occ[k]; }
          }
        }
      }
    }
  }

  lemma {:induction false} AgentTurnsPreservesInv(e: Ecosystem, turns: seq<AgentId>, moves: seq<AgentMove>, threshold: real)
    requires Inv(e) && Below(turns, |e.arena|) && |moves| >= |turns|
    ensures Inv(AgentTurns(e, turns, moves, threshold))
    decreases |turns|
  {
    if turns != [] {
      AgentTurnPreservesInv(e, turns[0], moves[0], threshold);
      AgentTurnsPreservesInv(AgentTurn(e, turns[0], moves[0], threshold), turns[1..], moves[1..], threshold);
    }
  }

  lemma {:induction false} WalkPreservesInv(e: Ecosystem, steps: seq<Offset>, moves: seq<AgentMove>, threshold: real)
    requires Inv(e) && |steps| >= |e.microplastics| && |moves| >= |e.agents|
    ensures Inv(Walked(e, steps, moves, threshold))
  {
    var drifted := DriftAll(e.plastics, e.microplastics, steps);
    DriftAllKeepsArenas(e.plastics, e.microplastics, steps, e.arena);
    DriftAllOnlyMoves(e.plastics, e.microplastics, steps);
    var e1 := e.(plastics := drifted);
    forall i | 0 <= i < |e1.microplastics|
      ensures LinkedAt(e1, e1.microplastics[i]) && BoundedAt(e1.plastics[e1.microplastics[i]])
    {
      assert LinkedAt(e, e.microplastics[i]) && BoundedAt(e.plastics[e.microplastics[i]]);
    }
    AgentTurnsPreservesInv(e1, e.agents, moves, threshold);
  }

  /** Moving an agent changes no attachment. */
  lemma {:induction false} MovedKeepsListed(e: Ecosystem, a: AgentId, x: real, y: real)
    requires WellFormed(e) && a < |e.arena| && Listed(e)
    ensures Listed(Moved(e, a, x, y))
  {
    var r := Moved(e, a, x, y);
    forall b | 0 <= b < |r.arena| ensures ListedAt(r, b) {
      assert ListedAt(e, b);
    }
  }

  /** An agent joining a live particle is listed by it, and the agents
      already listed stay listed: occupants are only appended. */
  lemma {:induction false} JoinedKeepsListed(e: Ecosystem, a: AgentId, p: PlasticId)
    requires WellFormed(e) && a < |e.arena| && p < |e.plastics| && p in e.microplastics && Listed(e)
    ensures Listed(Joined(e, a, p))
  {
    var r := Joined(e, a, p);
    assert r.plastics[p].organisms[|e.plastics[p].organisms|] == a;
    forall b | 0 <= b < |r.arena| && b != a ensures ListedAt(r, b) {
      assert ListedAt(e, b);
      if e.arena[b].isColonizing {
        var q := e.arena[b].plasticAttached.value;
        var k :| 0 <= k < |e.plastics[q].organisms| && e.plastics[q].organisms[k] == b;
        assert r.plastics[q].organisms[k] == b;
      }
    }
  }

  /** One turn keeps every colonizing agent listed: a colonizing agent only
      moves, and a free agent that attaches is appended to the occupants of
      the live particle it attaches to. */
  lemma {:induction false} AgentTurnKeepsListed(e: Ecosystem, a: AgentId, mv: AgentMove, threshold: real)
    requires WellFormed(e) && a < |e.arena| && Listed(e)
    ensures Listed(AgentTurn(e, a, mv, threshold))
  {
    var ag := e.arena[a];
    assert AgentOk(ag, |e.plastics|);
    if ag.isColonizing {
      var m := e.plastics[ag.plasticAttached.value];
      MovedKeepsListed(e, a, m.x + mv.jitter, m.y + mv.jitter);
    } else {
      var x := Clamp(ag.x + mv.walk.dx);
      var y := Clamp(ag.y + mv.walk.dy);
      MovedKeepsListed(e, a, x, y);
      match FirstAccepting(e, ag.organismType, x, y, e.microplastics, threshold)
      case None =>
      case Some(i) =>
        JoinedKeepsListed(Moved(e, a, x, y), a, e.microplastics[i]);
    }
  }

  lemma {:induction false} AgentTurnsKeepListed(e: Ecosystem, turns: seq<AgentId>, moves: seq<AgentMove>, threshold: real)
    requires WellFormed(e) && Below(turns, |e.arena|) && |moves| >= |turns| && Listed(e)
    ensures Listed(AgentTurns(e, turns, moves, threshold))
    decreases |turns|
  {
    if turns != [] {
      AgentTurnKeepsListed(e, turns[0], moves[0], threshold);
      AgentTurnsKeepListed(AgentTurn(e, turns[0], moves[0], threshold), turns[1..], moves[1..], threshold);
    }
  }

  /** `random_walk_and_adherence` keeps every colonizing agent listed by
      its particle: drift moves particles only, and each turn keeps the
      links. */
  lemma {:induction false} WalkKeepsListed(e: Ecosystem, steps: seq<Offset>, moves: seq<AgentMove>, threshold: real)
    requires WellFormed(e) && |steps| >= |e.microplastics| && |moves| >= |e.agents| && Listed(e)
    ensures Listed(Walked(e, steps, moves, threshold))
  {
    var drifted := DriftAll(e.plastics, e.microplastics, steps);
    DriftAllKeepsArenas(e.plastics, e.microplastics, steps, e.arena);
    DriftAllOnlyMoves(e.plastics, e.microplastics, steps);
    var e1 := e.(plastics := drifted);
    forall b | 0 <= b < |e1.arena| ensures ListedAt(e1, b) {
      assert ListedAt(e, b);
    }
    AgentTurnsKeepListed(e1, e.agents, moves, threshold);
  }
}
