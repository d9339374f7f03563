/**
 * The model object `EpsteinCivilViolence`: construction (density check, population, the
 * relabelled small-world graph), the per-tick `step` (censorship decay, one activation per
 * scheduled agent, censorship resolution, the reported counts and averages, the iteration
 * counter and the termination flag) and the static count and average helpers.
 */
module Model {

  import opened Wrappers
  import opened Space
  import opened Network
  import opened Agents
  import opened Perception
  import opened Metrics
  import opened Setup
  import opened AgentProperties

  /** Why construction fails: the densities sum to more than 1, or the network has no edge. */
  datatype InitError = DensityTooHigh | NoEdges

  // ---------------------------------------------------------------------------
  // One tick, as a function of the world

  /** The world as the schedule finds it: every censorship countdown decayed. */
  function Scheduled(p: Params, w: World, order: seq<nat>, draws: seq<AgentDraw>): World
    requires ParamsOk(p) && |order| == |draws|
  {
    Activated(p, w.(edges := Decayed(w.edges)), order, draws)
  }

  /** One tick: decay, the scheduled activations, then the resolution of the pending set, which is emptied. */
  function Tick(p: Params, w: World, order: seq<nat>, draws: seq<AgentDraw>, censorDraw: Edge -> real): World
    requires ParamsOk(p) && |order| == |draws|
  {
    var mid := Scheduled(p, w, order, draws);
    mid.(edges := Resolved(mid.edges, mid.pending, censorDraw, p.pLinkCensor, p.tCensor), pending := {})
  }

  /** Decaying the countdowns keeps the world valid. */
  lemma DecayKeepsValid(p: Params, w: World)
    requires WorldValid(p, w)
    ensures WorldValid(p, w.(edges := Decayed(w.edges)))
  {
  }

  /**
   * A tick keeps the world valid, keeps the set of network edges, empties the pending set,
   * keeps every agent's kind and fixed attributes, and leaves a pending set before resolution
   * that holds network edges only.
   */
  lemma TickPreserves(p: Params, w: World, order: seq<nat>, draws: seq<AgentDraw>, censorDraw: Edge -> real)
    requires ParamsOk(p) && WorldValid(p, w) && |order| == |draws|
    ensures var r := Tick(p, w, order, draws, censorDraw);
            && WorldValid(p, r) && r.pending == {} && r.edges.Keys == w.edges.Keys
            && |r.agents| == |w.agents|
            && (forall j :: 0 <= j < |w.agents| ==> SameTraits(w.agents[j], r.agents[j]))
    ensures Scheduled(p, w, order, draws).pending <= w.edges.Keys
    ensures Scheduled(p, w, order, draws).edges == Decayed(w.edges)
  {
    var w0 := w.(edges := Decayed(w.edges));
    DecayKeepsValid(p, w);
    ActivatedPreserves(p, w0, order, draws);
    var mid := Scheduled(p, w, order, draws);
    var r := Tick(p, w, order, draws, censorDraw);
    assert NetworkOk(p, mid.agents, mid.edges);
    assert NetworkOk(p, r.agents, r.edges);
  }

  /** A tick keeps the number of citizens and the number of cops. */
  lemma TickKeepsTotals(p: Params, w: World, order: seq<nat>, draws: seq<AgentDraw>, censorDraw: Edge -> real)
    requires ParamsOk(p) && WorldValid(p, w) && |order| == |draws|
    ensures var r := Tick(p, w, order, draws, censorDraw);
            CitizenTotal(r.agents) == CitizenTotal(w.agents) && CopTotal(r.agents) == CopTotal(w.agents)
  {
    TickPreserves(p, w, order, draws, censorDraw);
    TotalsKeepKinds(w.agents, Tick(p, w, order, draws, censorDraw).agents);
  }

  /**
   * The world between two steps: valid, nothing pending, and the stored edge count the
   * network's, and positive.
   */
  predicate Settled(p: Params, w: World, numberOfEdges: nat)
  {
    && ParamsOk(p)
    && WorldValid(p, w)
    && w.pending == {}
    && numberOfEdges == |w.edges| && numberOfEdges > 0
  }

  /** The links a tick leaves pending before resolution are network edges. */
  lemma TickPendsNetworkEdges(p: Params, w: World, order: seq<nat>, draws: seq<AgentDraw>, numberOfEdges: nat)
    requires Settled(p, w, numberOfEdges) && |order| == |draws|
    ensures Scheduled(p, w, order, draws).pending <= w.edges.Keys
  {
    TickPreserves(p, w, order, draws, e => 0.0);
  }

  /** A tick from a settled world ends in a settled world. */
  lemma TickSettles(p: Params, w: World, r: World, order: seq<nat>, draws: seq<AgentDraw>,
                    censorDraw: Edge -> real, numberOfEdges: nat)
    requires Settled(p, w, numberOfEdges) && |order| == |draws|
    requires r == Tick(p, w, order, draws, censorDraw)
    ensures Settled(p, r, numberOfEdges)
  {
    TickPreserves(p, w, order, draws, censorDraw);
    assert |r.edges| == |r.edges.Keys| == |w.edges.Keys| == |w.edges|;
  }

  // ---------------------------------------------------------------------------
  // Consecutive ticks

  /** What one tick draws: the activation order, one draw per activation, and the censorship draws. */
  datatype TickDraws = TickDraws(order: seq<nat>, draws: seq<AgentDraw>, censorDraw: Edge -> real)

  /** Every tick has one draw per scheduled activation. */
  predicate TickDrawsOk(ticks: seq<TickDraws>)
  {
    forall t :: 0 <= t < |ticks| ==> |ticks[t].order| == |ticks[t].draws|
  }

  /** The world after the given ticks, run one after the other. */
  function Ticks(p: Params, w: World, ticks: seq<TickDraws>): World
    requires ParamsOk(p) && TickDrawsOk(ticks)
  {
    if ticks == [] then w
    else
      var n := |ticks| - 1;
      Tick(p, Ticks(p, w, ticks[..n]), ticks[n].order, ticks[n].draws, ticks[n].censorDraw)
  }

  /** The pending set each of the given ticks hands to the censorship resolution, in order. */
  function TickPendings(p: Params, w: World, ticks: seq<TickDraws>): (r: seq<set<Edge>>)
    requires ParamsOk(p) && TickDrawsOk(ticks)
    ensures |r| == |ticks|
  {
    if ticks == [] then []
    else
      var n := |ticks| - 1;
      TickPendings(p, w, ticks[..n]) + [Scheduled(p, Ticks(p, w, ticks[..n]), ticks[n].order, ticks[n].draws).pending]
  }

  /** The censorship draws of the given ticks, in order. */
  function CensorDraws(ticks: seq<TickDraws>): (r: seq<Edge -> real>)
    ensures |r| == |ticks| && forall t :: 0 <= t < |ticks| ==> r[t] == ticks[t].censorDraw
  {
    if ticks == [] then [] else CensorDraws(ticks[..|ticks| - 1]) + [ticks[|ticks| - 1].censorDraw]
  }

  /** Consecutive ticks keep the world valid. */
  lemma {:induction false} TicksKeepValid(p: Params, w: World, ticks: seq<TickDraws>)
    requires ParamsOk(p) && WorldValid(p, w) && TickDrawsOk(ticks)
    ensures WorldValid(p, Ticks(p, w, ticks))
  {
    if ticks != [] {
      var n := |ticks| - 1;
      TicksKeepValid(p, w, ticks[..n]);
      TickFollowsNetwork(p, Ticks(p, w, ticks[..n]), ticks[n]);
    }
  }

  /**
   * Over consecutive ticks the countdowns evolve exactly as the network alone would: decay at
   * the start of each tick, then the resolution of that tick's pending set with its draws.
   */
  lemma {:induction false} TicksFollowNetwork(p: Params, w: World, ticks: seq<TickDraws>)
    requires ParamsOk(p) && WorldValid(p, w) && TickDrawsOk(ticks)
    ensures Ticks(p, w, ticks).edges
              == NetworkTicks(w.edges, TickPendings(p, w, ticks), CensorDraws(ticks), p.pLinkCensor, p.tCensor)
  {
    if ticks != [] {
      var n := |ticks| - 1;
      var before := Ticks(p, w, ticks[..n]);
      TicksFollowNetwork(p, w, ticks[..n]);
      TicksKeepValid(p, w, ticks[..n]);
      TickFollowsNetwork(p, before, ticks[n]);
      var pending := Scheduled(p, before, ticks[n].order, ticks[n].draws).pending;
      assert TickPendings(p, w, ticks) == TickPendings(p, w, ticks[..n]) + [pending];
      assert CensorDraws(ticks) == CensorDraws(ticks[..n]) + [ticks[n].censorDraw];
      NetworkTicksSnoc(w.edges, TickPendings(p, w, ticks[..n]), CensorDraws(ticks[..n]), pending,
                       ticks[n].censorDraw, p.pLinkCensor, p.tCensor);
    }
  }

  /** One tick's countdowns: its decay, then the resolution of the pending set it leaves. */
  lemma TickFollowsNetwork(p: Params, w: World, t: TickDraws)
    requires ParamsOk(p) && WorldValid(p, w) && |t.order| == |t.draws|
    ensures WorldValid(p, Tick(p, w, t.order, t.draws, t.censorDraw))
    ensures Tick(p, w, t.order, t.draws, t.censorDraw).edges
              == Resolved(Decayed(w.edges), Scheduled(p, w, t.order, t.draws).pending, t.censorDraw, p.pLinkCensor, p.tCensor)
  {
    TickPreserves(p, w, t.order, t.draws, t.censorDraw);
  }

  /**
   * An edge whose countdown a tick leaves at `t_censor` is out of the live network the next
   * `t_censor - 1` ticks see, whatever those ticks draw, and live again in the tick after
   * those, once its decay has run.
   */
  lemma TickedEdgeRestored(p: Params, w: World, e: Edge, ticks: seq<TickDraws>)
    requires ParamsOk(p) && WorldValid(p, w) && TickDrawsOk(ticks)
    requires e in w.edges && w.edges[e] == p.tCensor && 0 < |ticks| + 1 <= p.tCensor
    ensures var now := Decayed(Ticks(p, w, ticks).edges);
            e in now && (e in LiveEdges(now) <==> |ticks| + 1 == p.tCensor)
  {
    TicksFollowNetwork(p, w, ticks);
    CensoredEdgeRestored(w.edges, e, TickPendings(p, w, ticks), CensorDraws(ticks), p.pLinkCensor, p.tCensor);
  }

  /**
   * A link the censorship of one tick cuts (pending, uncensored and drawn below `p_link_censor`)
   * is out of the live network the next `t_censor - 1` ticks see and live again in the one after.
   */
  lemma CensoredLinkRestored(p: Params, w: World, first: TickDraws, e: Edge, ticks: seq<TickDraws>)
    requires ParamsOk(p) && WorldValid(p, w) && |first.order| == |first.draws| && TickDrawsOk(ticks)
    requires var mid := Scheduled(p, w, first.order, first.draws);
             e in NewlyCensored(mid.edges, mid.pending, first.censorDraw, p.pLinkCensor)
    requires 0 < |ticks| + 1 <= p.tCensor
    ensures var now := Decayed(Ticks(p, Tick(p, w, first.order, first.draws, first.censorDraw), ticks).edges);
            e in now && (e in LiveEdges(now) <==> |ticks| + 1 == p.tCensor)
  {
    var next := Tick(p, w, first.order, first.draws, first.censorDraw);
    TickPreserves(p, w, first.order, first.draws, first.censorDraw);
    TickedEdgeRestored(p, next, e, ticks);
  }

  /** `running` as the steps leave it: set until the iteration counter passes `max_iters`. */
  function StillRunning(iteration: nat, maxIters: int): bool
  {
    iteration == 0 || iteration <= maxIters
  }

  /** The pending set holds network edges only, so the link ratio lies between 0 and 1. */
  lemma {:induction false} SubsetCard(a: set<Edge>, b: set<Edge>)
    requires a <= b
    ensures |a| <= |b|
  {
    if a != {} {
      var x :| x in a;
      SubsetCard(a - {x}, b - {x});
    }
  }

  // ---------------------------------------------------------------------------
  // Construction helpers

  /** In `coord_iter` order a cell is visited once: it is not among the cells visited before it. */
  lemma NotYetVisited(cells: seq<Cell>, k: nat)
    requires k < |cells|
    requires Ordered(cells)
    ensures cells[k] !in cells[..k]
  {
  }

  /** Appending an agent appends its id to the citizen ids exactly when it is a citizen. */
  lemma CitizenIdsAppend(agents: seq<Agent>, a: Agent)
    ensures CitizenIds(agents + [a]) == CitizenIds(agents) + (if a.Citizen? then [|agents|] else [])
  {
    var s := agents + [a];
    assert s[..|agents|] == agents;
    assert s[|s| - 1] == a;
  }

  /** Placing a new agent on an empty cell keeps the grid consistent. */
  lemma AddKeepsGrid(agents: seq<Agent>, grid: map<Cell, nat>, a: Agent)
    requires GridConsistent(agents, grid) && a.pos !in grid
    ensures GridConsistent(agents + [a], grid[a.pos := |agents|])
  {
    var agents' := agents + [a];
    var grid' := grid[a.pos := |agents|];
    forall j | 0 <= j < |agents'| ensures agents'[j].pos in grid' && grid'[agents'[j].pos] == j {
      if j < |agents| {
        assert agents'[j] == agents[j];
      }
    }
  }

  /** One more cell visited: the population grows by the agent created there, if any. */
  lemma PopulationStep(p: Params, copDensity: real, citizenDensity: real, draw: Cell -> CellDraw,
                       cells: seq<Cell>, k: nat)
    requires k < |cells|
    ensures Population(p, copDensity, citizenDensity, draw, cells[..k + 1])
            == Population(p, copDensity, citizenDensity, draw, cells[..k])
               + (match NewAgent(p, copDensity, citizenDensity, cells[k], draw(cells[k]))
                  case None => []
                  case Some(a) => [a])
  {
    assert cells[..k + 1][..k] == cells[..k];
  }

  /** What the placement loop has built after visiting the first `k` cells. */
  ghost predicate Placed(p: Params, copDensity: real, citizenDensity: real, draw: Cell -> CellDraw,
                   cells: seq<Cell>, k: nat, agents: seq<Agent>, grid: map<Cell, nat>, citizenIds: seq<nat>)
    requires k <= |cells|
  {
    && agents == Population(p, copDensity, citizenDensity, draw, cells[..k])
    && citizenIds == CitizenIds(agents)
    && GridConsistent(agents, grid)
    && (forall c: Cell :: c in grid <==> (c in cells[..k] && NewAgent(p, copDensity, citizenDensity, c, draw(c)).Some?))
    && (forall j :: 0 <= j < |agents| ==> AgentOk(p, agents[j]) && Fresh(agents[j]))
  }

  /** Visiting cell `k` when it gets agent `a`: `a` stands on that cell with the next id. */
  lemma PlaceAgent(p: Params, copDensity: real, citizenDensity: real, draw: Cell -> CellDraw, cells: seq<Cell>,
                   k: nat, agents: seq<Agent>, grid: map<Cell, nat>, citizenIds: seq<nat>, a: Agent)
    requires k < |cells|
    requires Ordered(cells)
    requires InBounds(cells[k], p.width, p.height)
    requires Placed(p, copDensity, citizenDensity, draw, cells, k, agents, grid, citizenIds)
    requires NewAgent(p, copDensity, citizenDensity, cells[k], draw(cells[k])) == Some(a)
    ensures Placed(p, copDensity, citizenDensity, draw, cells, k + 1, agents + [a], grid[cells[k] := |agents|],
                   citizenIds + (if a.Citizen? then [|agents|] else []))
  {
    AppendAgent(p, copDensity, citizenDensity, draw, cells, k, agents, citizenIds, a);
    AppendCell(p, copDensity, citizenDensity, draw, cells, k, agents, grid, a);
    PlacedIntro(p, copDensity, citizenDensity, draw, cells, k + 1, agents + [a], grid[cells[k] := |agents|],
                citizenIds + (if a.Citizen? then [|agents|] else []));
  }

  /** The agent created on cell `k` extends the population, the citizen ids and the well-formed agents. */
  lemma AppendAgent(p: Params, copDensity: real, citizenDensity: real, draw: Cell -> CellDraw, cells: seq<Cell>,
                    k: nat, agents: seq<Agent>, citizenIds: seq<nat>, a: Agent)
    requires k < |cells|
    requires InBounds(cells[k], p.width, p.height)
    requires agents == Population(p, copDensity, citizenDensity, draw, cells[..k])
    requires citizenIds == CitizenIds(agents)
    requires forall j :: 0 <= j < |agents| ==> AgentOk(p, agents[j]) && Fresh(agents[j])
    requires NewAgent(p, copDensity, citizenDensity, cells[k], draw(cells[k])) == Some(a)
    ensures agents + [a] == Population(p, copDensity, citizenDensity, draw, cells[..k + 1])
    ensures citizenIds + (if a.Citizen? then [|agents|] else []) == CitizenIds(agents + [a])
    ensures forall j :: 0 <= j < |agents + [a]| ==> AgentOk(p, (agents + [a])[j]) && Fresh((agents + [a])[j])
  {
    PopulationStep(p, copDensity, citizenDensity, draw, cells, k);
    CitizenIdsAppend(agents, a);
    NewAgentOk(p, copDensity, citizenDensity, cells[k], draw(cells[k]));
    AppendKeepsOk(p, agents, a);
  }

  /** The cell `k`, not visited before, takes the new agent's id and the grid stays consistent. */
  lemma AppendCell(p: Params, copDensity: real, citizenDensity: real, draw: Cell -> CellDraw, cells: seq<Cell>,
                   k: nat, agents: seq<Agent>, grid: map<Cell, nat>, a: Agent)
    requires k < |cells|
    requires Ordered(cells)
    requires GridConsistent(agents, grid)
    requires forall c: Cell :: c in grid <==> (c in cells[..k] && NewAgent(p, copDensity, citizenDensity, c, draw(c)).Some?)
    requires NewAgent(p, copDensity, citizenDensity, cells[k], draw(cells[k])) == Some(a)
    ensures GridConsistent(agents + [a], grid[cells[k] := |agents|])
    ensures forall c: Cell :: c in grid[cells[k] := |agents|] <==>
              (c in cells[..k + 1] && NewAgent(p, copDensity, citizenDensity, c, draw(c)).Some?)
  {
    NotYetVisited(cells, k);
    AddKeepsGrid(agents, grid, a);
    GridKeysStep(p, copDensity, citizenDensity, draw, cells, k, grid, grid[cells[k] := |agents|]);
  }

  /** The placement invariant, from its parts. */
  lemma PlacedIntro(p: Params, copDensity: real, citizenDensity: real, draw: Cell -> CellDraw,
                    cells: seq<Cell>, k: nat, agents: seq<Agent>, grid: map<Cell, nat>, citizenIds: seq<nat>)
    requires k <= |cells|
    requires agents == Population(p, copDensity, citizenDensity, draw, cells[..k])
    requires citizenIds == CitizenIds(agents)
    requires GridConsistent(agents, grid)
    requires forall c: Cell :: c in grid <==> (c in cells[..k] && NewAgent(p, copDensity, citizenDensity, c, draw(c)).Some?)
    requires forall j :: 0 <= j < |agents| ==> AgentOk(p, agents[j]) && Fresh(agents[j])
    ensures Placed(p, copDensity, citizenDensity, draw, cells, k, agents, grid, citizenIds)
  {
  }

  /** Visiting cell `k` when it gets no agent changes nothing that was built. */
  lemma PlaceNothing(p: Params, copDensity: real, citizenDensity: real, draw: Cell -> CellDraw, cells: seq<Cell>,
                     k: nat, agents: seq<Agent>, grid: map<Cell, nat>, citizenIds: seq<nat>)
    requires k < |cells|
    requires Placed(p, copDensity, citizenDensity, draw, cells, k, agents, grid, citizenIds)
    requires NewAgent(p, copDensity, citizenDensity, cells[k], draw(cells[k])).None?
    ensures Placed(p, copDensity, citizenDensity, draw, cells, k + 1, agents, grid, citizenIds)
  {
    PopulationStep(p, copDensity, citizenDensity, draw, cells, k);
    GridKeysStep(p, copDensity, citizenDensity, draw, cells, k, grid, grid);
  }

  /** Before any cell is visited nothing is built. */
  lemma PlacedStart(p: Params, copDensity: real, citizenDensity: real, draw: Cell -> CellDraw, cells: seq<Cell>)
    ensures Placed(p, copDensity, citizenDensity, draw, cells, 0, [], map[], [])
  {
    assert cells[..0] == [];
  }

  /** Once every cell is visited, the population is complete and occupies exactly the cells that got an agent. */
  lemma PlacedAll(p: Params, copDensity: real, citizenDensity: real, draw: Cell -> CellDraw,
                  agents: seq<Agent>, grid: map<Cell, nat>, citizenIds: seq<nat>)
    requires Placed(p, copDensity, citizenDensity, draw, AllCells(p.width, p.height),
                    |AllCells(p.width, p.height)|, agents, grid, citizenIds)
    ensures agents == Population(p, copDensity, citizenDensity, draw, AllCells(p.width, p.height))
    ensures citizenIds == CitizenIds(agents)
    ensures GridConsistent(agents, grid)
    ensures forall c: Cell :: c in grid <==>
              (InBounds(c, p.width, p.height) && NewAgent(p, copDensity, citizenDensity, c, draw(c)).Some?)
    ensures forall j :: 0 <= j < |agents| ==> AgentOk(p, agents[j]) && Fresh(agents[j])
  {
    var cells := AllCells(p.width, p.height);
    assert cells[..|cells|] == cells;
  }

  /** The occupied cells after visiting cell `k`: those before, and cell `k` when it got an agent. */
  lemma GridKeysStep(p: Params, copDensity: real, citizenDensity: real, draw: Cell -> CellDraw,
                     cells: seq<Cell>, k: nat, grid: map<Cell, nat>, grid': map<Cell, nat>)
    requires k < |cells|
    requires forall c: Cell :: c in grid <==> (c in cells[..k] && NewAgent(p, copDensity, citizenDensity, c, draw(c)).Some?)
    requires grid'.Keys == grid.Keys + (if NewAgent(p, copDensity, citizenDensity, cells[k], draw(cells[k])).Some? then {cells[k]} else {})
    ensures forall c: Cell :: c in grid' <==> (c in cells[..k + 1] && NewAgent(p, copDensity, citizenDensity, c, draw(c)).Some?)
  {
    VisitedOneMore(cells, k);
  }

  /** The cells visited after `k + 1` steps are those after `k` steps and cell `k`. */
  lemma VisitedOneMore(cells: seq<Cell>, k: nat)
    requires k < |cells|
    ensures forall x: Cell :: x in cells[..k + 1] <==> x in cells[..k] || x == cells[k]
  {
    assert cells[..k + 1] == cells[..k] + [cells[k]];
  }

  /** An agent created on a grid cell agrees with the parameters and is fresh. */
  lemma NewAgentOk(p: Params, copDensity: real, citizenDensity: real, c: Cell, d: CellDraw)
    requires InBounds(c, p.width, p.height)
    ensures var o := NewAgent(p, copDensity, citizenDensity, c, d);
            o.Some? ==> AgentOk(p, o.value) && Fresh(o.value)
  {
  }

  /** Appending an agent that agrees with the parameters and is fresh keeps every agent so. */
  lemma AppendKeepsOk(p: Params, agents: seq<Agent>, a: Agent)
    requires forall j :: 0 <= j < |agents| ==> AgentOk(p, agents[j]) && Fresh(agents[j])
    requires AgentOk(p, a) && Fresh(a)
    ensures forall j :: 0 <= j < |agents + [a]| ==> AgentOk(p, (agents + [a])[j]) && Fresh((agents + [a])[j])
  {
    forall j | 0 <= j < |agents + [a]| ensures AgentOk(p, (agents + [a])[j]) && Fresh((agents + [a])[j]) {
      if j < |agents| {
        assert (agents + [a])[j] == agents[j];
      }
    }
  }

  /** In network mode, the decided record is the citizen with its estimate, its condition and the ties it received. */
  lemma NetworkDecided(p: Params, w: World, i: nat, ap: real, strong: nat, weak: nat)
    requires ParamsOk(p) && p.withNetwork && i < |w.agents| && w.agents[i].Citizen?
    requires ap == NetworkEstimate(p, w, i, Occupants(w.grid, SeenCells(p, w.agents[i]))).0
    requires strong == |ActiveTies(w.agents, Neighbours(LiveEdges(w.edges), i))|
    requires weak == |ActiveTies(w.agents, Ball2(LiveEdges(w.edges), i) - Neighbours(LiveEdges(w.edges), i))|
    ensures Decided(p, w, i) == w.agents[i].(condition := NextCondition(w.agents[i], ap), arrestProbability := Some(ap),
                                             strongTiesReceived := strong, weakTiesReceived := weak)
  {
  }

  /** Without the network, the decided record is the citizen with its estimate and its condition. */
  lemma SpatialDecided(p: Params, w: World, i: nat, ap: real)
    requires ParamsOk(p) && !p.withNetwork && i < |w.agents| && w.agents[i].Citizen?
    requires ap == SpatialEstimate(p, w.agents, Occupants(w.grid, SeenCells(p, w.agents[i]))).0
    ensures Decided(p, w, i) == w.agents[i].(condition := NextCondition(w.agents[i], ap), arrestProbability := Some(ap))
  {
  }

  // ---------------------------------------------------------------------------
  // The model object

  class EpsteinCivilViolence {

    const params: Params
    /** The agents by `unique_id` (mesa's schedule and `agent_dict`). */
    var agents: seq<Agent>
    /** The occupied cells of the grid and the id standing on each. */
    var grid: map<Cell, nat>
    /** The network `G`: each edge's `censor_steps`. */
    var g: Countdowns
    var linkToCensor: set<Edge>
    const numberOfEdges: nat
    var iteration: nat
    var running: bool
    var censoredLinks: nat
    var activeLinks: nat
    var activatedLinkRatio: real
    var activeCount: nat
    var quiescentCount: nat
    var jailCount: nat
    var averageJailTerm: real
    var strongTiesReceival: real
    var weakTiesReceival: real
    const citizenCount: nat
    const copCount: nat

    function State(): World
      reads this`agents, this`grid, this`g, this`linkToCensor
    {
      World(agents, grid, g, linkToCensor)
    }

    /** The reported counts and averages agree with the agents. */
    predicate Reported()
      reads this`agents, this`activeCount, this`quiescentCount, this`jailCount, this`averageJailTerm
      reads this`strongTiesReceival, this`weakTiesReceival
    {
      && activeCount == ConditionTotal(agents, Active, true)
      && quiescentCount == ConditionTotal(agents, Quiescent, true)
      && jailCount == JailedTotal(agents)
      && averageJailTerm == AverageJailTerm(agents, jailCount)
      && (StrongSum(agents) > 0 ==> FreeTotal(agents) > 0)
      && (WeakSum(agents) > 0 ==> FreeTotal(agents) > 0)
      && strongTiesReceival == AverageReceival(StrongSum(agents), FreeTotal(agents))
      && weakTiesReceival == AverageReceival(WeakSum(agents), FreeTotal(agents))
    }

    /**
     * Between steps: the world is settled, `running` holds until the iteration counter
     * passes `max_iters`, `citizen_count` and `cop_count` are the citizen and cop totals, and
     * after the first step the reported counts are right.
     */
    predicate Valid()
      reads this
    {
      && Settled(params, State(), numberOfEdges)
      && running == StillRunning(iteration, params.maxIters)
      && citizenCount == CitizenTotal(agents) && copCount == CopTotal(agents)
      && (iteration > 0 ==> Reported())
    }

    /** The fields `__init__` sets before building anything, with the populated grid and network. */
    constructor (p: Params, agents: seq<Agent>, grid: map<Cell, nat>, g: Countdowns)
      requires ParamsOk(p) && WorldValid(p, World(agents, grid, g, {})) && |g| > 0
      ensures params == p && this.agents == agents && this.grid == grid && this.g == g
      ensures linkToCensor == {} && numberOfEdges == |g| && iteration == 0 && running
      ensures censoredLinks == 0 && activeLinks == 0 && activatedLinkRatio == 0.0
      ensures citizenCount == CitizenTotal(agents) && copCount == CopTotal(agents)
      ensures Valid()
    {
      params := p;
      this.agents := agents;
      this.grid := grid;
      this.g := g;
      linkToCensor := {};
      numberOfEdges := |g|;
      iteration := 0;
      running := true;
      censoredLinks := 0;
      activeLinks := 0;
      activatedLinkRatio := 0.0;
      activeCount := 0;
      quiescentCount := 0;
      jailCount := 0;
      averageJailTerm := 0.0;
      strongTiesReceival := 0.0;
      weakTiesReceival := 0.0;
      var q := CountTypeCitizens(agents, Quiescent, true);
      var a := CountTypeCitizens(agents, Active, true);
      var j := CountJailed(agents);
      CitizensPartition(agents);
      var cops := CountCops(agents);
      citizenCount := q + a + j;
      copCount := cops;
    }

    /**
     * `__init__`: fails with `DensityTooHigh` exactly when the densities sum to more than 1;
     * otherwise visits every cell in `coord_iter` order, builds the generator's graph on the
     * citizens and relabels it onto their ids. The first data collection divides by the edge
     * count, so a graph without edges fails with `NoEdges`.
     */
    static method Create(p: Params, copDensity: real, citizenDensity: real,
                         cellDraw: Cell -> CellDraw, smallWorld: nat -> set<Edge>)
      returns (r: Result<EpsteinCivilViolence, InitError>)
      requires ParamsOk(p)
      requires forall n: nat :: SimpleOn(smallWorld(n), n)
      ensures (r.Failure? && r.error == DensityTooHigh) <==> copDensity + citizenDensity > 1.0
      ensures var pop := Population(p, copDensity, citizenDensity, cellDraw, AllCells(p.width, p.height));
              (r.Failure? && r.error == NoEdges) <==>
                (copDensity + citizenDensity <= 1.0 && smallWorld(|CitizenIds(pop)|) == {})
      ensures r.Success? ==>
                var m := r.value;
                var pop := Population(p, copDensity, citizenDensity, cellDraw, AllCells(p.width, p.height));
                && fresh(m) && m.Valid() && m.params == p && m.iteration == 0 && m.running
                && m.agents == pop
                && (forall j :: 0 <= j < |m.agents| ==> Fresh(m.agents[j]))
                && m.g == Relabel(smallWorld(|CitizenIds(pop)|), CitizenIds(pop))
                && m.citizenCount == CitizenTotal(pop) && m.copCount == CopTotal(pop)
    {
      if copDensity + citizenDensity > 1.0 {
        return Failure(DensityTooHigh);
      }
      var agents, grid, citizenIds := PlacePopulation(p, copDensity, citizenDensity, cellDraw);
      var edges := smallWorld(|citizenIds|);
      var g := Relabel(edges, citizenIds);
      if ActiveLinkRatio(0, |g|).None? {
        return Failure(NoEdges);
      }
      RelabelOk(p, agents, edges);
      assert NetworkOk(p, agents, g);
      var m := new EpsteinCivilViolence(p, agents, grid, g);
      return Success(m);
    }

    /**
     * One cell visited by the placement loop of `__init__`: a cop when the cop roll is under
     * the cop density, else a citizen when the second roll is under the sum of the densities,
     * else nothing; a placed agent takes the next unique id.
     */
    static method VisitCell(p: Params, copDensity: real, citizenDensity: real, cellDraw: Cell -> CellDraw,
                            cells: seq<Cell>, k: nat, agents0: seq<Agent>, grid0: map<Cell, nat>,
                            citizenIds0: seq<nat>, uniqueId0: nat)
      returns (agents: seq<Agent>, grid: map<Cell, nat>, citizenIds: seq<nat>, uniqueId: nat)
      requires k < |cells| && Ordered(cells) && InBounds(cells[k], p.width, p.height)
      requires uniqueId0 == |agents0|
      requires Placed(p, copDensity, citizenDensity, cellDraw, cells, k, agents0, grid0, citizenIds0)
      ensures uniqueId == |agents|
      ensures Placed(p, copDensity, citizenDensity, cellDraw, cells, k + 1, agents, grid, citizenIds)
    {
      agents, grid, citizenIds, uniqueId := agents0, grid0, citizenIds0, uniqueId0;
      var c := cells[k];
      var d := cellDraw(c);
      if d.copRoll < copDensity {
        var cop := Cop(c, p.copVision);
        PlaceAgent(p, copDensity, citizenDensity, cellDraw, cells, k, agents, grid, citizenIds, cop);
        grid := grid[c := uniqueId];
        agents := agents + [cop];
        uniqueId := uniqueId + 1;
      } else if d.citizenRoll < copDensity + citizenDensity {
        var citizen := NewCitizen(p, c, d.hardship, d.riskAversion);
        PlaceAgent(p, copDensity, citizenDensity, cellDraw, cells, k, agents, grid, citizenIds, citizen);
        citizenIds := citizenIds + [uniqueId];
        grid := grid[c := uniqueId];
        agents := agents + [citizen];
        uniqueId := uniqueId + 1;
      } else {
        PlaceNothing(p, copDensity, citizenDensity, cellDraw, cells, k, agents, grid, citizenIds);
      }
    }

    /**
     * The placement loop of `__init__`: each cell gets a cop when its cop roll is under the
     * cop density, else a citizen when its second roll is under the sum of the densities;
     * ids count up from 0 in visiting order, and every cell holds at most one agent.
     */
    static method PlacePopulation(p: Params, copDensity: real, citizenDensity: real, cellDraw: Cell -> CellDraw)
      returns (agents: seq<Agent>, grid: map<Cell, nat>, citizenIds: seq<nat>)
      ensures agents == Population(p, copDensity, citizenDensity, cellDraw, AllCells(p.width, p.height))
      ensures citizenIds == CitizenIds(agents)
      ensures GridConsistent(agents, grid)
      ensures forall c: Cell :: c in grid <==>
                (InBounds(c, p.width, p.height) && NewAgent(p, copDensity, citizenDensity, c, cellDraw(c)).Some?)
      ensures forall j :: 0 <= j < |agents| ==> AgentOk(p, agents[j]) && Fresh(agents[j])
    {
      var cells := AllCells(p.width, p.height);
      AllCellsOrdered(p.width, p.height);
      agents, grid, citizenIds := VisitCells(p, copDensity, citizenDensity, cellDraw, cells);
      PlacedAll(p, copDensity, citizenDensity, cellDraw, agents, grid, citizenIds);
    }

    /** The loop of `__init__` over the cells of the grid, in the order given. */
    static method VisitCells(p: Params, copDensity: real, citizenDensity: real, cellDraw: Cell -> CellDraw,
                             cells: seq<Cell>)
      returns (agents: seq<Agent>, grid: map<Cell, nat>, citizenIds: seq<nat>)
      requires Ordered(cells) && forall c :: c in cells ==> InBounds(c, p.width, p.height)
      ensures Placed(p, copDensity, citizenDensity, cellDraw, cells, |cells|, agents, grid, citizenIds)
    {
      agents := [];
      grid := map[];
      citizenIds := [];
      var uniqueId := 0;
      PlacedStart(p, copDensity, citizenDensity, cellDraw, cells);
      for k := 0 to |cells|
        invariant uniqueId == |agents|
        invariant Placed(p, copDensity, citizenDensity, cellDraw, cells, k, agents, grid, citizenIds)
      {
        assert InBounds(cells[k], p.width, p.height) by { assert cells[k] in cells; }
        agents, grid, citizenIds, uniqueId :=
          VisitCell(p, copDensity, citizenDensity, cellDraw, cells, k, agents, grid, citizenIds, uniqueId);
      }
    }

    // -------------------------------------------------------------------------
    // The count and average helpers

    /** `count_type_citizens`: skips cops and, when `excludeJailed`, jailed citizens. */
    static method CountTypeCitizens(agents: seq<Agent>, condition: Condition, excludeJailed: bool)
      returns (count: nat)
      ensures count == ConditionTotal(agents, condition, excludeJailed)
    {
      count := 0;
      for k := 0 to |agents|
        invariant count == ConditionTotal(agents[..k], condition, excludeJailed)
      {
        assert agents[..k + 1][..k] == agents[..k];
        var agent := agents[k];
        if agent.Citizen? {
          if !(excludeJailed && agent.jailSentence > 0) {
            if agent.condition == condition {
              count := count + 1;
            }
          }
        }
      }
      assert agents[..|agents|] == agents;
    }

    /** `count_jailed`: the citizens with a positive sentence. */
    static method CountJailed(agents: seq<Agent>) returns (count: nat)
      ensures count == JailedTotal(agents)
    {
      count := 0;
      for k := 0 to |agents|
        invariant count == JailedTotal(agents[..k])
      {
        assert agents[..k + 1][..k] == agents[..k];
        if agents[k].Citizen? && agents[k].jailSentence > 0 {
          count := count + 1;
        }
      }
      assert agents[..|agents|] == agents;
    }

    /** `count_citizens`. */
    static method CountCitizens(agents: seq<Agent>) returns (count: nat)
      ensures count == CitizenTotal(agents)
    {
      count := 0;
      for k := 0 to |agents|
        invariant count == CitizenTotal(agents[..k])
      {
        assert agents[..k + 1][..k] == agents[..k];
        if agents[k].Citizen? {
          count := count + 1;
        }
      }
      assert agents[..|agents|] == agents;
    }

    /** `count_cops`. */
    static method CountCops(agents: seq<Agent>) returns (count: nat)
      ensures count == CopTotal(agents)
    {
      count := 0;
      for k := 0 to |agents|
        invariant count == CopTotal(agents[..k])
      {
        assert agents[..k + 1][..k] == agents[..k];
        if agents[k].Cop? {
          count := count + 1;
        }
      }
      assert agents[..|agents|] == agents;
    }

    /**
     * `get_active_link_ratio`: the pending links over the network's edge count, undefined
     * (a division by zero) when the network has no edge; at most 1 when no more links are
     * pending than there are edges.
     */
    static function ActiveLinkRatio(activeLinks: nat, numberOfEdges: nat): (r: Option<real>)
      ensures r.Some? <==> numberOfEdges > 0
      ensures r.Some? ==> r.value * numberOfEdges as real == activeLinks as real
      ensures r.Some? ==> 0.0 <= r.value && (activeLinks <= numberOfEdges ==> r.value <= 1.0)
    {
      if numberOfEdges == 0 then None
      else
        var q := activeLinks as real / numberOfEdges as real;
        assert q * numberOfEdges as real == activeLinks as real;
        Some(q)
    }

    /** `get_average_jail_term`, from the stored jail count. */
    static method GetAverageJailTerm(agents: seq<Agent>, jailCount: nat) returns (avg: real)
      ensures avg == AverageJailTerm(agents, jailCount)
    {
      var total := 0;
      for k := 0 to |agents|
        invariant total == JailSum(agents[..k])
      {
        assert agents[..k + 1][..k] == agents[..k];
        if agents[k].Citizen? && agents[k].jailSentence > 0 {
          total := total + agents[k].jailSentence;
        }
      }
      assert agents[..|agents|] == agents;
      if jailCount == 0 {
        avg := 0.0;
      } else {
        avg := total as real / jailCount as real;
      }
    }

    /** `get_average_strong_ties_receival`: 0 when no strong tie was received, else the mean over free citizens. */
    static method GetAverageStrongTiesReceival(agents: seq<Agent>) returns (avg: real)
      ensures StrongSum(agents) > 0 ==> FreeTotal(agents) > 0
      ensures avg == AverageReceival(StrongSum(agents), FreeTotal(agents))
    {
      var total := 0;
      var count := 0;
      for k := 0 to |agents|
        invariant total == StrongSum(agents[..k]) && count == FreeTotal(agents[..k])
      {
        assert agents[..k + 1][..k] == agents[..k];
        if agents[k].Citizen? && agents[k].jailSentence == 0 {
          total := total + agents[k].strongTiesReceived;
          count := count + 1;
        }
      }
      assert agents[..|agents|] == agents;
      StrongNeedsFree(agents);
      if total == 0 {
        avg := 0.0;
      } else {
        avg := total as real / count as real;
      }
    }

    /** `get_average_weak_ties_receival`: 0 when no weak tie was received, else the mean over free citizens. */
    static method GetAverageWeakTiesReceival(agents: seq<Agent>) returns (avg: real)
      ensures WeakSum(agents) > 0 ==> FreeTotal(agents) > 0
      ensures avg == AverageReceival(WeakSum(agents), FreeTotal(agents))
    {
      var total := 0;
      var count := 0;
      for k := 0 to |agents|
        invariant total == WeakSum(agents[..k]) && count == FreeTotal(agents[..k])
      {
        assert agents[..k + 1][..k] == agents[..k];
        if agents[k].Citizen? && agents[k].jailSentence == 0 {
          total := total + agents[k].weakTiesReceived;
          count := count + 1;
        }
      }
      assert agents[..|agents|] == agents;
      WeakNeedsFree(agents);
      if total == 0 {
        avg := 0.0;
      } else {
        avg := total as real / count as real;
      }
    }

    // -------------------------------------------------------------------------
    // The network's censorship

    /** The decay loop of `step`: every positive `censor_steps` drops by 1. */
    method DecayCensorship()
      modifies this`g
      ensures g == Decayed(old(g))
    {
      var g0 := g;
      var todo := g.Keys;
      while todo != {}
        invariant todo <= g0.Keys && g.Keys == g0.Keys
        invariant forall e :: e in g0 ==> g[e] == (if e !in todo && g0[e] > 0 then g0[e] - 1 else g0[e])
        decreases |todo|
      {
        var e :| e in todo;
        if g[e] > 0 {
          g := g[e := g[e] - 1];
        }
        todo := todo - {e};
      }
      assert g == Decayed(g0);
    }

    /**
     * The resolution loop of `step`: each pending edge whose countdown is 0 gets its own draw,
     * and when the draw is under `p_link_censor` it is censored for `t_censor` steps and
     * counted in `censored_links`.
     */
    method ResolveCensorship(draw: Edge -> real)
      requires linkToCensor <= g.Keys
      modifies this`g, this`censoredLinks
      ensures g == Resolved(old(g), linkToCensor, draw, params.pLinkCensor, params.tCensor)
      ensures censoredLinks == old(censoredLinks) + |NewlyCensored(old(g), linkToCensor, draw, params.pLinkCensor)|
    {
      var h, n := ResolveLinks(g, linkToCensor, draw, params.pLinkCensor, params.tCensor);
      g := h;
      censoredLinks := censoredLinks + n;
    }

    // -------------------------------------------------------------------------
    // The step

    /**
     * `step`: reset the censored-links counter, decay every censorship countdown, activate
     * the scheduled agents, record the pending links and their ratio to the edge count,
     * resolve the pending links, empty the pending set, refresh the reported counts and
     * averages, and advance the iteration counter, clearing `running` once it passes
     * `max_iters`.
     */
    method Step(order: seq<nat>, draws: seq<AgentDraw>, censorDraw: Edge -> real)
      requires Valid() && |order| == |draws|
      modifies this
      ensures Valid() && Reported()
      ensures State() == Tick(params, old(State()), order, draws, censorDraw)
      ensures iteration == old(iteration) + 1
      ensures running == (iteration <= params.maxIters)
      ensures var mid := Scheduled(params, old(State()), order, draws);
              && activeLinks == |mid.pending|
              && censoredLinks == |NewlyCensored(mid.edges, mid.pending, censorDraw, params.pLinkCensor)|
      ensures activatedLinkRatio == ActiveLinkRatio(activeLinks, numberOfEdges).value
    {
      AdvanceSettled(order, draws, censorDraw);
      FinishStep();
    }

    /** The world part of `step` from a valid state: it ends settled, with the clock untouched. */
    method AdvanceSettled(order: seq<nat>, draws: seq<AgentDraw>, censorDraw: Edge -> real)
      requires Settled(params, State(), numberOfEdges) && |order| == |draws|
      modifies this`agents, this`grid, this`g, this`linkToCensor
      modifies this`censoredLinks, this`activeLinks, this`activatedLinkRatio
      ensures Settled(params, State(), numberOfEdges)
      ensures State() == Tick(params, old(State()), order, draws, censorDraw)
      ensures running == old(running) && iteration == old(iteration)
      ensures CitizenTotal(agents) == CitizenTotal(old(agents)) && CopTotal(agents) == CopTotal(old(agents))
      ensures var mid := Scheduled(params, old(State()), order, draws);
              && activeLinks == |mid.pending|
              && censoredLinks == |NewlyCensored(mid.edges, mid.pending, censorDraw, params.pLinkCensor)|
      ensures activatedLinkRatio == ActiveLinkRatio(activeLinks, numberOfEdges).value
    {
      ghost var w := State();
      ghost var wasRunning, before := running, iteration;
      TickPendsNetworkEdges(params, w, order, draws, numberOfEdges);
      Advance(order, draws, censorDraw);
      assert running == wasRunning && iteration == before;
      TickSettles(params, w, State(), order, draws, censorDraw, numberOfEdges);
      TickKeepsTotals(params, w, order, draws, censorDraw);
    }

    /**
     * The network and agent part of `step`, up to the emptying of `link_to_censor`: the
     * world after it is the tick of the world before it, and the link counters are those of
     * that tick.
     */
    method Advance(order: seq<nat>, draws: seq<AgentDraw>, censorDraw: Edge -> real)
      requires ParamsOk(params) && |order| == |draws|
      requires Scheduled(params, State(), order, draws).pending <= g.Keys
      requires numberOfEdges == |g| && numberOfEdges > 0
      modifies this`agents, this`grid, this`g, this`linkToCensor
      modifies this`censoredLinks, this`activeLinks, this`activatedLinkRatio
      ensures State() == Tick(params, old(State()), order, draws, censorDraw)
      ensures var mid := Scheduled(params, old(State()), order, draws);
              && activeLinks == |mid.pending|
              && censoredLinks == |NewlyCensored(mid.edges, mid.pending, censorDraw, params.pLinkCensor)|
      ensures activeLinks <= numberOfEdges
      ensures activatedLinkRatio == ActiveLinkRatio(activeLinks, numberOfEdges).value
    {
      ghost var w := State();
      censoredLinks := 0;
      DecayCensorship();
      assert State() == w.(edges := Decayed(w.edges));
      ScheduleStep(order, draws);
      assert State() == Scheduled(params, w, order, draws);
      activeLinks := |linkToCensor|;
      SubsetCard(linkToCensor, g.Keys);
      activatedLinkRatio := ActiveLinkRatio(activeLinks, numberOfEdges).value;
      ResolveCensorship(censorDraw);
      linkToCensor := {};
    }

    /**
     * The count refresh at the end of `step`: the reported counts and averages recomputed
     * from the agents, in their order there.
     */
    method UpdateCounts()
      requires WorldValid(params, State())
      modifies this`activeCount, this`quiescentCount, this`jailCount, this`averageJailTerm
      modifies this`strongTiesReceival, this`weakTiesReceival
      ensures Reported()
      ensures activeCount + quiescentCount + jailCount == CitizenTotal(agents)
      ensures jailCount == 0 <==> averageJailTerm == 0.0
      ensures jailCount > 0 ==> 1.0 <= averageJailTerm <= params.maxJailTerm as real
      ensures censoredLinks == old(censoredLinks) && activeLinks == old(activeLinks)
      ensures activatedLinkRatio == old(activatedLinkRatio)
    {
      CitizensPartition(agents);
      AverageJailTermBounds(params, State());
      var active := CountTypeCitizens(agents, Active, true);
      var quiescent := CountTypeCitizens(agents, Quiescent, true);
      var jail := CountJailed(agents);
      var average := GetAverageJailTerm(agents, jail);
      var strong := GetAverageStrongTiesReceival(agents);
      var weak := GetAverageWeakTiesReceival(agents);
      activeCount, quiescentCount, jailCount, averageJailTerm := active, quiescent, jail, average;
      strongTiesReceival, weakTiesReceival := strong, weak;
    }

    /**
     * The end of `step`: the reported counts and averages refreshed from the agents, then
     * the iteration counter advanced; the world itself is left as it is.
     */
    method FinishStep()
      requires WorldValid(params, State())
      requires running == StillRunning(iteration, params.maxIters)
      modifies this`activeCount, this`quiescentCount, this`jailCount, this`averageJailTerm
      modifies this`strongTiesReceival, this`weakTiesReceival, this`iteration, this`running
      ensures State() == old(State())
      ensures Reported()
      ensures activeCount + quiescentCount + jailCount == CitizenTotal(agents)
      ensures jailCount == 0 <==> averageJailTerm == 0.0
      ensures jailCount > 0 ==> 1.0 <= averageJailTerm <= params.maxJailTerm as real
      ensures iteration == old(iteration) + 1
      ensures running == StillRunning(iteration, params.maxIters)
      ensures running == (iteration <= params.maxIters)
      ensures censoredLinks == old(censoredLinks) && activeLinks == old(activeLinks)
      ensures activatedLinkRatio == old(activatedLinkRatio)
    {
      UpdateCounts();
      NextIteration();
    }

    /** The last lines of `step`: the iteration counter advanced, `running` cleared once it passes `max_iters`. */
    method NextIteration()
      requires running == StillRunning(iteration, params.maxIters)
      modifies this`iteration, this`running
      ensures iteration == old(iteration) + 1
      ensures running == StillRunning(iteration, params.maxIters)
      ensures running == (iteration <= params.maxIters)
      ensures censoredLinks == old(censoredLinks) && activeLinks == old(activeLinks)
      ensures activatedLinkRatio == old(activatedLinkRatio)
    {
      iteration := iteration + 1;
      if iteration > params.maxIters {
        running := false;
      }
    }

    // -------------------------------------------------------------------------
    // The agents' steps

    /** `grid.move_agent(agent, pos)`: the agent leaves its cell and stands on `c`. */
    method MoveAgent(i: nat, c: Cell)
      requires i < |agents|
      modifies this`agents, this`grid
      ensures State() == MoveTo(old(State()), i, Some(c))
    {
      var a := agents[i];
      grid := (grid - {a.pos})[c := i];
      agents := agents[i := a.(pos := c)];
    }

    /**
     * The loop of `Citizen.step` over the edges of the pruned ego graph at the citizen: each
     * is added to `link_to_censor` as its canonical pair.
     */
    method MarkEgoEdges(i: nat, one: set<nat>)
      modifies this`linkToCensor
      ensures linkToCensor == old(linkToCensor) + set y | y in one :: Canon(i, y)
    {
      var todo := one;
      while todo != {}
        invariant todo <= one
        invariant linkToCensor == old(linkToCensor) + set y | y in one - todo :: Canon(i, y)
        decreases |todo|
      {
        var y :| y in todo;
        var u, v := i, y;
        if !(u < v) {
          u, v := y, i;
        }
        linkToCensor := linkToCensor + {Edge(u, v)};
        assert (set z | z in one - (todo - {y}) :: Canon(i, z)) == (set z | z in one - todo :: Canon(i, z)) + {Canon(i, y)};
        todo := todo - {y};
      }
      assert one - todo == one;
    }

    /**
     * `Citizen.step`: a jailed citizen serves one tick and stops. A free one decides (in
     * network mode, with its ego view, marking its live ties for censorship when it is
     * already Active) and then moves to a drawn empty cell it saw, when movement is on.
     */
    method CitizenStep(i: nat, d: AgentDraw)
      requires ParamsOk(params) && i < |agents| && agents[i].Citizen?
      modifies this`agents, this`grid, this`linkToCensor
      ensures State() == CitizenRule(params, old(State()), i, d)
    {
      var a := agents[i];
      if a.jailSentence > 0 {
        agents := agents[i := a.(jailSentence := a.jailSentence - 1)];
        return;
      }
      var w := State();
      var empty;
      if params.withNetwork {
        var b, one, empty' := DecideWithNetwork(params, w, i);
        agents := agents[i := b];
        if a.condition == Active {
          MarkEgoEdges(i, one);
        }
        empty := empty';
      } else {
        var b, empty' := DecideSpatially(params, w, i);
        agents := agents[i := b];
        empty := empty';
      }
      assert State() == CitizenDecision(params, w, i);
      if params.movement && |empty| > 0 {
        MoveAgent(i, empty[d.move % |empty|]);
      }
    }

    /**
     * The network branch of `Citizen.step`, up to the move: `prepare_ego`, `update_neighbors`,
     * `update_network_arrest_probability` and the activation check. It returns the new record,
     * the one-hop live ties (whose edges get marked) and the empty cells seen.
     */
    static method DecideWithNetwork(p: Params, w: World, i: nat) returns (b: Agent, one: set<nat>, empty: seq<Cell>)
      requires ParamsOk(p) && p.withNetwork && i < |w.agents| && w.agents[i].Citizen?
      ensures b == Decided(p, w, i)
      ensures one == Neighbours(LiveEdges(w.edges), i)
      ensures empty == EmptyCells(w.grid, SeenCells(p, w.agents[i]))
    {
      var a := w.agents[i];
      var two;
      one, two := PrepareEgo(w.edges, i);
      var neighborhood, neighbors;
      neighborhood, neighbors, empty := UpdateNeighbors(p, w, a);
      var ap, actives, strong, weak := UpdateNetworkArrestProbability(p, w.agents, neighbors, one, two);
      b := a.(arrestProbability := Some(ap), strongTiesReceived := strong, weakTiesReceived := weak);
      if b.condition == Quiescent {
        if b.grievance - b.riskAversion * ap > b.threshold {
          b := b.(condition := Active);
        }
      }
      assert b == a.(condition := NextCondition(a, ap), arrestProbability := Some(ap),
                     strongTiesReceived := strong, weakTiesReceived := weak);
      NetworkDecided(p, w, i, ap, strong, weak);
    }

    /**
     * The branch of `Citizen.step` without the network, up to the move: `update_neighbors`,
     * `update_estimated_arrest_probability` and the activation check.
     */
    static method DecideSpatially(p: Params, w: World, i: nat) returns (b: Agent, empty: seq<Cell>)
      requires ParamsOk(p) && !p.withNetwork && i < |w.agents| && w.agents[i].Citizen?
      ensures b == Decided(p, w, i)
      ensures empty == EmptyCells(w.grid, SeenCells(p, w.agents[i]))
    {
      var a := w.agents[i];
      var neighborhood, neighbors;
      neighborhood, neighbors, empty := UpdateNeighbors(p, w, a);
      var ap, actives := UpdateEstimatedArrestProbability(p, w.agents, neighbors);
      b := a.(arrestProbability := Some(ap));
      if b.condition == Quiescent {
        if b.grievance - b.riskAversion * ap > b.threshold {
          b := b.(condition := Active);
        }
      }
      assert b == a.(condition := NextCondition(a, ap), arrestProbability := Some(ap));
      SpatialDecided(p, w, i, ap);
    }

    /**
     * `Cop.step`: look around, jail one drawn Active, non-jailed citizen in vision for a drawn
     * sentence in `[0, max_jail_term]`, then move to a drawn empty cell seen before the arrest.
     */
    method CopStep(i: nat, d: AgentDraw)
      requires i < |agents| && agents[i].Cop?
      modifies this`agents, this`grid
      ensures State() == CopRule(params, old(State()), i, d)
    {
      var w := State();
      var arrestee, empty := CopLooks(params, w, i, d);
      if arrestee.Some? {
        var sentence := d.sentence % (params.maxJailTerm + 1);
        var j := arrestee.value;
        agents := agents[j := agents[j].(jailSentence := sentence, condition := Quiescent)];
      }
      assert State() == CopArrest(params, w, i, d);
      if params.movement && |empty| > 0 {
        MoveAgent(i, empty[d.move % |empty|]);
      }
    }

    /**
     * The looking part of `Cop.step`: `update_neighbors`, the loop collecting the Active,
     * non-jailed neighbours and the draw of the arrestee among them, if any.
     */
    static method CopLooks(p: Params, w: World, i: nat, d: AgentDraw) returns (arrestee: Option<nat>, empty: seq<Cell>)
      requires i < |w.agents|
      ensures arrestee == Arrestee(p, w, i, d)
      ensures arrestee.Some? ==> arrestee.value < |w.agents| && w.agents[arrestee.value].Citizen?
      ensures empty == EmptyCells(w.grid, SeenCells(p, w.agents[i]))
    {
      var neighborhood, neighbors;
      neighborhood, neighbors, empty := UpdateNeighbors(p, w, w.agents[i]);
      var active := ActiveNeighbors(w.agents, neighbors);
      if |active| > 0 {
        arrestee := Some(active[d.arrestee % |active|]);
        assert arrestee.value in active;
      } else {
        arrestee := None;
      }
    }

    /** One activation by the scheduler: the agent's `step`, by breed. */
    method ActivateAgent(i: nat, d: AgentDraw)
      requires ParamsOk(params)
      modifies this`agents, this`grid, this`linkToCensor
      ensures State() == Activate(params, old(State()), i, d)
    {
      if i < |agents| {
        if agents[i].Citizen? {
          CitizenStep(i, d);
        } else {
          CopStep(i, d);
        }
      }
    }

    /** `schedule.step()`: every agent of the scheduler's order is activated in turn. */
    method ScheduleStep(order: seq<nat>, draws: seq<AgentDraw>)
      requires ParamsOk(params) && |order| == |draws|
      modifies this`agents, this`grid, this`linkToCensor
      ensures State() == Activated(params, old(State()), order, draws)
    {
      for k := 0 to |order|
        invariant State() == Activated(params, old(State()), order[..k], draws[..k])
      {
        assert order[..k + 1][..k] == order[..k] && draws[..k + 1][..k] == draws[..k];
        ActivateAgent(order[k], draws[k]);
      }
      assert order[..|order|] == order && draws[..|draws|] == draws;
    }
  }

  /** The loop of `ResolveCensorship`, on the countdowns as a value. */
  method ResolveLinks(g: Countdowns, pending: set<Edge>, draw: Edge -> real, pLinkCensor: real, tCensor: nat)
    returns (h: Countdowns, n: nat)
    requires pending <= g.Keys
    ensures h == Resolved(g, pending, draw, pLinkCensor, tCensor)
    ensures n == |NewlyCensored(g, pending, draw, pLinkCensor)|
  {
    h, n := g, 0;
    var todo := pending;
    while todo != {}
      invariant todo <= pending
      invariant h == Resolved(g, pending - todo, draw, pLinkCensor, tCensor)
      invariant n == |NewlyCensored(g, pending - todo, draw, pLinkCensor)|
      decreases |todo|
    {
      var e :| e in todo;
      ResolveOne(g, pending - todo, e, draw, pLinkCensor, tCensor);
      if h[e] == 0 {
        if draw(e) < pLinkCensor {
          h := h[e := tCensor];
          n := n + 1;
        }
      }
      assert pending - (todo - {e}) == (pending - todo) + {e};
      todo := todo - {e};
    }
    assert pending - todo == pending;
  }

  /** Resolving one more pending edge `e` of the network, not yet resolved, with its own draw. */
  lemma ResolveOne(g: Countdowns, done: set<Edge>, e: Edge, draw: Edge -> real, pLinkCensor: real, tCensor: nat)
    requires e in g && e !in done
    ensures var h := Resolved(g, done, draw, pLinkCensor, tCensor);
            && e in h && h[e] == g[e]
            && Resolved(g, done + {e}, draw, pLinkCensor, tCensor)
               == (if g[e] == 0 && draw(e) < pLinkCensor then h[e := tCensor] else h)
            && |NewlyCensored(g, done + {e}, draw, pLinkCensor)|
               == |NewlyCensored(g, done, draw, pLinkCensor)| + (if g[e] == 0 && draw(e) < pLinkCensor then 1 else 0)
  {
    var s0 := NewlyCensored(g, done, draw, pLinkCensor);
    if g[e] == 0 && draw(e) < pLinkCensor {
      assert NewlyCensored(g, done + {e}, draw, pLinkCensor) == s0 + {e};
    } else {
      assert NewlyCensored(g, done + {e}, draw, pLinkCensor) == s0;
    }
  }
}
