/**
 * What an agent computes before it acts: its neighbourhood and the empty cells in it
 * (`update_neighbors`), a citizen's two-hop ego view of the live network (`prepare_ego`),
 * its estimate of the arrest probability with and without the network
 * (`update_network_arrest_probability`, `update_estimated_arrest_probability`), and a
 * cop's list of Active, non-jailed neighbours. Each loop is proved against the
 * specification functions of the agent rules.
 */
module Perception {

  import opened Wrappers
  import opened Space
  import opened Network
  import opened Agents

  /**
   * `update_neighbors` (the same for a citizen and a cop): the Moore neighbourhood at the
   * agent's vision, the agents standing in it, and the empty cells of it in the same order.
   */
  method UpdateNeighbors(p: Params, w: World, a: Agent)
    returns (neighborhood: seq<Cell>, neighbors: seq<nat>, empty: seq<Cell>)
    ensures neighborhood == SeenCells(p, a)
    ensures neighbors == Occupants(w.grid, neighborhood)
    ensures empty == EmptyCells(w.grid, neighborhood)
    ensures forall c: Cell :: c in empty <==>
              (InBounds(c, p.width, p.height) && InMoore(a.pos, a.vision, p.width, p.height, c) && c !in w.grid)
  {
    neighborhood := Neighbourhood(a.pos, a.vision, p.width, p.height);
    neighbors := Occupants(w.grid, neighborhood);
    empty := [];
    var k := 0;
    while k < |neighborhood|
      invariant 0 <= k <= |neighborhood|
      invariant empty == EmptyCells(w.grid, neighborhood[..k])
    {
      assert neighborhood[..k + 1][..k] == neighborhood[..k];
      if neighborhood[k] !in w.grid {
        empty := empty + [neighborhood[k]];
      }
      k := k + 1;
    }
    assert neighborhood[..k] == neighborhood;
  }

  /**
   * `prepare_ego`: the radius-2 ego graph of the citizen, with its censored edges removed
   * (the loop collecting `ebunch`) and the radius-2 ego graph taken again. The one-hop set is
   * the citizen's live neighbours; the two-hop set is every node within two live hops that is
   * not one of them, the citizen itself included.
   */
  method PrepareEgo(g: Countdowns, c: nat) returns (one: set<nat>, two: set<nat>)
    ensures one == Neighbours(LiveEdges(g), c)
    ensures two == Ball2(LiveEdges(g), c) - Neighbours(LiveEdges(g), c)
    ensures c in two && c !in one
  {
    var ego := EgoGraph(g, c);
    var ebunch := CensoredEdges(ego.edges);
    var pruned := RemoveEdges(ego.edges, ebunch);
    LiveEgoEdges(g, c, ebunch, pruned);
    TwoPassEgo(g, c, pruned);
    var ego2 := EgoGraph(pruned, c);
    one := Neighbours(ego2.edges.Keys, c);
    two := ego2.nodes - one;
    assert Within2(LiveEdges(g), c, c);
  }

  /** The loop of `prepare_ego` collecting `ebunch`: the edges whose countdown is positive. */
  method CensoredEdges(h: Countdowns) returns (ebunch: set<Edge>)
    ensures ebunch == set e | e in h && h[e] > 0
  {
    ebunch := {};
    var todo := h.Keys;
    while todo != {}
      invariant todo <= h.Keys
      invariant ebunch == set e | e in h.Keys - todo && h[e] > 0
      decreases |todo|
    {
      var e :| e in todo;
      if h[e] > 0 {
        ebunch := ebunch + {e};
      }
      todo := todo - {e};
    }
  }

  /** `remove_edges_from(ebunch)`: the graph without the edges of `ebunch`. */
  function RemoveEdges(h: Countdowns, ebunch: set<Edge>): (r: Countdowns)
    ensures r.Keys == h.Keys - ebunch
    ensures forall e :: e in r ==> r[e] == h[e]
  {
    map e | e in h && e !in ebunch :: h[e]
  }

  /** Removing the censored edges of the ego graph leaves exactly its live edges. */
  lemma LiveEgoEdges(g: Countdowns, c: nat, ebunch: set<Edge>, pruned: Countdowns)
    requires ebunch == set e | e in EgoGraph(g, c).edges && EgoGraph(g, c).edges[e] > 0
    requires pruned == RemoveEdges(EgoGraph(g, c).edges, ebunch)
    ensures pruned.Keys == EgoGraph(g, c).edges.Keys * LiveEdges(g)
  {
    var ego := EgoGraph(g, c);
    var b := Ball2(g.Keys, c);
    assert ego.edges == Induced(g, b);
    forall e | e in ego.edges ensures ego.edges[e] == g[e] {
    }
  }

  /** One more tie looked at: the active ties of `done + {x}` are those of `done`, plus `x` if it is active. */
  lemma ActiveTiesStep(agents: seq<Agent>, done: set<nat>, x: nat)
    requires x !in done
    ensures |ActiveTies(agents, done + {x})| == |ActiveTies(agents, done)| + (if IsActiveFree(agents, x) then 1 else 0)
  {
    if IsActiveFree(agents, x) {
      assert ActiveTies(agents, done + {x}) == ActiveTies(agents, done) + {x};
    } else {
      assert ActiveTies(agents, done + {x}) == ActiveTies(agents, done);
    }
  }

  /**
   * The loop over a tie set that bumps a counter for every Active, non-jailed tie: it
   * returns the number of such ties.
   */
  method CountActiveTies(agents: seq<Agent>, ties: set<nat>) returns (n: nat)
    ensures n == |ActiveTies(agents, ties)|
  {
    n := 0;
    var todo := ties;
    while todo != {}
      invariant todo <= ties
      invariant n == |ActiveTies(agents, ties - todo)|
      decreases |todo|
    {
      var x :| x in todo;
      ActiveTiesStep(agents, ties - todo, x);
      assert ties - (todo - {x}) == (ties - todo) + {x};
      if IsActiveFree(agents, x) {
        n := n + 1;
      }
      todo := todo - {x};
    }
    assert ties - todo == ties;
  }

  /** The loop over the agents in vision that counts the Active, non-jailed citizens. */
  method CountActiveInVision(agents: seq<Agent>, neighbors: seq<nat>) returns (n: nat)
    ensures n == ActivesAmong(agents, neighbors)
  {
    n := 0;
    var k := 0;
    while k < |neighbors|
      invariant 0 <= k <= |neighbors|
      invariant n == ActivesAmong(agents, neighbors[..k])
    {
      assert neighbors[..k + 1][..k] == neighbors[..k];
      if IsActiveFree(agents, neighbors[k]) {
        n := n + 1;
      }
      k := k + 1;
    }
    assert neighbors[..k] == neighbors;
  }

  /**
   * `update_network_arrest_probability`: the actives count starts at 1 (the citizen itself),
   * adds every Active, non-jailed citizen in vision, `strong_weak_ratio` for every Active,
   * non-jailed one-hop tie and 1 for every such two-hop tie; the tie counters are reset and
   * count those ties; the arrest probability is the curve at the floor of cops over actives.
   */
  method UpdateNetworkArrestProbability(p: Params, agents: seq<Agent>, neighbors: seq<nat>,
                                        one: set<nat>, two: set<nat>)
    returns (arrestProbability: real, activesInVision: real, strong: nat, weak: nat)
    requires ParamsOk(p)
    ensures strong == |ActiveTies(agents, one)| && weak == |ActiveTies(agents, two)|
    ensures activesInVision == TieEstimate(p, agents, neighbors, one, two).1
    ensures arrestProbability == TieEstimate(p, agents, neighbors, one, two).0
  {
    var copsInVision := CopsAmong(agents, neighbors);
    var spatial := CountActiveInVision(agents, neighbors);
    activesInVision := 1.0 + spatial as real;
    strong := CountActiveTies(agents, one);
    activesInVision := activesInVision + p.strongWeakRatio * strong as real;
    weak := CountActiveTies(agents, two);
    activesInVision := activesInVision + weak as real;
    arrestProbability := p.arrestCurve(FloorRatio(copsInVision, activesInVision));
  }

  /**
   * `update_estimated_arrest_probability`: the actives count is 1 plus the Active, non-jailed
   * citizens in vision, and the arrest probability the curve at the floor of cops over actives.
   */
  method UpdateEstimatedArrestProbability(p: Params, agents: seq<Agent>, neighbors: seq<nat>)
    returns (arrestProbability: real, activesInVision: real)
    ensures activesInVision == SpatialEstimate(p, agents, neighbors).1
    ensures arrestProbability == SpatialEstimate(p, agents, neighbors).0
  {
    var copsInVision := CopsAmong(agents, neighbors);
    var n := CountActiveInVision(agents, neighbors);
    activesInVision := 1.0 + n as real;
    arrestProbability := p.arrestCurve(FloorRatio(copsInVision, activesInVision));
  }

  /** The loop of `Cop.step` collecting the Active, non-jailed citizens among its neighbours. */
  method ActiveNeighbors(agents: seq<Agent>, neighbors: seq<nat>) returns (active: seq<nat>)
    ensures active == ActiveIds(agents, neighbors)
    ensures forall j :: j in active <==> j in neighbors && IsActiveFree(agents, j)
  {
    active := [];
    var k := 0;
    while k < |neighbors|
      invariant 0 <= k <= |neighbors|
      invariant active == ActiveIds(agents, neighbors[..k])
    {
      assert neighbors[..k + 1][..k] == neighbors[..k];
      if IsActiveFree(agents, neighbors[k]) {
        active := active + [neighbors[k]];
      }
      k := k + 1;
    }
    assert neighbors[..k] == neighbors;
  }
}
