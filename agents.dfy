/**
 * The agents of the simulation and their per-tick rules: the Citizen (grievance, arrest
 * probability estimate, Quiescent/Active transition, jail countdown, censorship marks on its
 * ties) and the Cop (arrest of one active neighbour). Agents live in an arena, `World.agents`,
 * indexed by their unique id; the grid maps each occupied cell to the id of its agent.
 */
module Agents {

  import opened Wrappers
  import opened Space
  import opened Network

  datatype Condition = Quiescent | Active

  /**
   * A Citizen or a Cop. The Citizen's `hardship`, `regimeLegitimacy`, `riskAversion`,
   * `threshold`, `vision` and `grievance` are fixed at creation; `condition`, `jailSentence`,
   * `arrestProbability` (None until first computed) and the tie counters are its state.
   */
  datatype Agent =
    | Citizen(pos: Cell, hardship: real, regimeLegitimacy: real, riskAversion: real,
              threshold: real, vision: nat, condition: Condition, jailSentence: nat,
              grievance: real, arrestProbability: Option<real>,
              strongTiesReceived: nat, weakTiesReceived: nat)
    | Cop(pos: Cell, vision: nat)

  /**
   * The model's construction parameters that the rules read. `arrestCurve(n)` stands for
   * `1 - exp(-arrest_prob_constant * n)`; `withNetwork` is `activation_type == "With SWN"`.
   */
  datatype Params = Params(width: nat, height: nat, citizenVision: nat, copVision: nat,
                           legitimacy: real, maxJailTerm: nat, activeThreshold: real,
                           arrestCurve: nat -> real, movement: bool, maxIters: int,
                           withNetwork: bool, strongWeakRatio: real, tCensor: nat,
                           pLinkCensor: real)

  /** The parameter range the rules need: tie weights are not negative. */
  predicate ParamsOk(p: Params)
  {
    p.strongWeakRatio >= 0.0
  }

  /**
   * The mutable state an activation reads and writes: the agents, the grid's occupancy,
   * the network's censorship countdowns and the pending-censorship set `link_to_censor`.
   */
  datatype World = World(agents: seq<Agent>, grid: map<Cell, nat>, edges: Countdowns, pending: set<Edge>)

  /**
   * The random values one activation consumes: the index of the arrestee among the active
   * neighbours, the raw jail-sentence draw and the index of the target cell among the empty ones.
   */
  datatype AgentDraw = AgentDraw(arrestee: nat, sentence: nat, move: nat)

  // ---------------------------------------------------------------------------
  // Invariants of the world

  /** Each agent stands on the cell the grid lists it at, and each cell holds at most one agent. */
  predicate GridConsistent(agents: seq<Agent>, grid: map<Cell, nat>)
  {
    && (forall c :: c in grid ==> grid[c] < |agents| && agents[grid[c]].pos == c)
    && (forall j :: 0 <= j < |agents| ==> agents[j].pos in grid && grid[agents[j].pos] == j)
  }

  /** An agent agrees with the model's parameters, and a citizen's grievance is its formula. */
  predicate AgentOk(p: Params, a: Agent)
  {
    && InBounds(a.pos, p.width, p.height)
    && (a.Citizen? ==>
          && a.regimeLegitimacy == p.legitimacy
          && a.threshold == p.activeThreshold
          && a.vision == p.citizenVision
          && a.grievance == a.hardship * (1.0 - a.regimeLegitimacy)
          && a.jailSentence <= p.maxJailTerm)
    && (a.Cop? ==> a.vision == p.copVision)
  }

  /** Network edges are canonical pairs of citizen ids, censored for at most `tCensor` ticks. */
  predicate NetworkOk(p: Params, agents: seq<Agent>, edges: Countdowns)
  {
    forall e :: e in edges ==>
      && e.lo < e.hi < |agents|
      && agents[e.lo].Citizen? && agents[e.hi].Citizen?
      && edges[e] <= p.tCensor
  }

  predicate WorldValid(p: Params, w: World)
  {
    && GridConsistent(w.agents, w.grid)
    && (forall j :: 0 <= j < |w.agents| ==> AgentOk(p, w.agents[j]))
    && NetworkOk(p, w.agents, w.edges)
    && w.pending <= w.edges.Keys
  }

  /**
   * `Citizen.__init__` as the model calls it: the legitimacy, threshold and vision come from
   * the model's parameters. A new citizen is Quiescent, not jailed, has no arrest estimate
   * and no received ties yet, and its grievance is fixed once as `hardship * (1 - legitimacy)`.
   */
  function NewCitizen(p: Params, pos: Cell, hardship: real, riskAversion: real): (a: Agent)
    ensures a.Citizen? && a.pos == pos && a.hardship == hardship && a.riskAversion == riskAversion
    ensures a.condition == Quiescent && a.jailSentence == 0 && a.arrestProbability == None
    ensures a.strongTiesReceived == 0 && a.weakTiesReceived == 0
    ensures InBounds(pos, p.width, p.height) ==> AgentOk(p, a)
  {
    Citizen(pos, hardship, p.legitimacy, riskAversion, p.activeThreshold, p.citizenVision,
            Quiescent, 0, hardship * (1.0 - p.legitimacy), None, 0, 0)
  }

  /** What no rule ever changes about an agent: its kind and its fixed attributes. */
  predicate SameTraits(a: Agent, b: Agent)
  {
    match a
    case Citizen(_, _, _, _, _, _, _, _, _, _, _, _) =>
      b.Citizen? && b.hardship == a.hardship && b.regimeLegitimacy == a.regimeLegitimacy &&
      b.riskAversion == a.riskAversion && b.threshold == a.threshold &&
      b.vision == a.vision && b.grievance == a.grievance
    case Cop(_, _) => b.Cop? && b.vision == a.vision
  }

  // ---------------------------------------------------------------------------
  // What an agent sees

  /** A citizen counted as an active in vision and as a received tie: Active and not jailed. */
  predicate IsActiveFree(agents: seq<Agent>, j: nat)
  {
    j < |agents| && agents[j].Citizen? && agents[j].condition == Active && agents[j].jailSentence == 0
  }

  predicate IsCopAt(agents: seq<Agent>, j: nat)
  {
    j < |agents| && agents[j].Cop?
  }

  /** `len([c for c in neighbors if c.breed == "cop"])`. */
  function CopsAmong(agents: seq<Agent>, ids: seq<nat>): (n: nat)
    ensures n <= |ids|
  {
    if ids == [] then 0
    else CopsAmong(agents, ids[..|ids| - 1]) + (if IsCopAt(agents, ids[|ids| - 1]) then 1 else 0)
  }

  /** The number of Active, non-jailed citizens among `ids`. */
  function ActivesAmong(agents: seq<Agent>, ids: seq<nat>): (n: nat)
    ensures n <= |ids|
  {
    if ids == [] then 0
    else ActivesAmong(agents, ids[..|ids| - 1]) + (if IsActiveFree(agents, ids[|ids| - 1]) then 1 else 0)
  }

  /** The Active, non-jailed citizens among `ids`, in the order of `ids`. */
  function ActiveIds(agents: seq<Agent>, ids: seq<nat>): (r: seq<nat>)
    ensures |r| == ActivesAmong(agents, ids)
    ensures forall j :: j in r <==> j in ids && IsActiveFree(agents, j)
  {
    if ids == [] then []
    else
      var last := ids[|ids| - 1];
      assert ids == ids[..|ids| - 1] + [last];
      ActiveIds(agents, ids[..|ids| - 1]) + (if IsActiveFree(agents, last) then [last] else [])
  }

  /** The Active, non-jailed citizens among a set of network ties. */
  function ActiveTies(agents: seq<Agent>, ties: set<nat>): (r: set<nat>)
    ensures r <= ties
  {
    set j | j in ties && IsActiveFree(agents, j)
  }

  /**
   * `math.floor(cops / actives)` for an actives count of at least 1 (the citizen counts
   * itself): a natural number, at most `cops`, and 0 when no cop is in vision.
   */
  function FloorRatio(cops: nat, actives: real): (n: nat)
    requires actives >= 1.0
    ensures n as real <= cops as real / actives < n as real + 1.0
    ensures n <= cops
    ensures cops == 0 ==> n == 0
  {
    var q := cops as real / actives;
    assert q * actives == cops as real;
    assert 0.0 <= q <= q * actives;
    q.Floor
  }

  /**
   * The activation check: a Quiescent citizen becomes Active when its grievance net of risk
   * exceeds its threshold; an Active one stays Active.
   */
  function NextCondition(a: Agent, arrestProbability: real): Condition
    requires a.Citizen?
  {
    if a.condition == Quiescent && a.grievance - a.riskAversion * arrestProbability > a.threshold
    then Active
    else a.condition
  }

  /** `grid.move_agent(agent, target)`, or nothing when no target was drawn. */
  function MoveTo(w: World, i: nat, target: Option<Cell>): World
    requires i < |w.agents|
  {
    match target
    case None => w
    case Some(c) =>
      var a := w.agents[i];
      w.(agents := w.agents[i := a.(pos := c)], grid := (w.grid - {a.pos})[c := i])
  }

  // ---------------------------------------------------------------------------
  // The rules

  /** The Moore neighbourhood an agent sees from where it stands. */
  function SeenCells(p: Params, a: Agent): seq<Cell>
  {
    Neighbourhood(a.pos, a.vision, p.width, p.height)
  }

  /**
   * The arrest probability and weighted actives count from what a citizen sees: itself, the
   * Active, non-jailed citizens among `neighbours`, those among its one-hop ties (each
   * weighted `strongWeakRatio`) and among its two-hop ties.
   */
  function TieEstimate(p: Params, agents: seq<Agent>, neighbours: seq<nat>, one: set<nat>, two: set<nat>): (est: (real, real))
    requires ParamsOk(p)
    ensures est.1 >= 1.0
  {
    var actives := 1.0 + ActivesAmong(agents, neighbours) as real
                   + p.strongWeakRatio * |ActiveTies(agents, one)| as real
                   + |ActiveTies(agents, two)| as real;
    (p.arrestCurve(FloorRatio(CopsAmong(agents, neighbours), actives)), actives)
  }

  /** The estimate of citizen `i` in network mode: its ties are its live neighbours and the rest of its live 2-hop ball. */
  function NetworkEstimate(p: Params, w: World, i: nat, neighbours: seq<nat>): (est: (real, real))
    requires ParamsOk(p)
    ensures est.1 >= 1.0
  {
    var one := Neighbours(LiveEdges(w.edges), i);
    TieEstimate(p, w.agents, neighbours, one, Ball2(LiveEdges(w.edges), i) - one)
  }

  /** The arrest probability and actives count of a citizen without the network. */
  function SpatialEstimate(p: Params, agents: seq<Agent>, neighbours: seq<nat>): (est: (real, real))
    ensures est.1 >= 1.0
  {
    var actives := 1.0 + ActivesAmong(agents, neighbours) as real;
    (p.arrestCurve(FloorRatio(CopsAmong(agents, neighbours), actives)), actives)
  }

  /** The arrest probability and actives count of a citizen, in the model's activation mode. */
  function Estimate(p: Params, w: World, i: nat, neighbours: seq<nat>): (est: (real, real))
    requires ParamsOk(p)
    ensures est.1 >= 1.0
  {
    if p.withNetwork then NetworkEstimate(p, w, i, neighbours) else SpatialEstimate(p, w.agents, neighbours)
  }

  /**
   * A free citizen's record after its decision: its new arrest estimate, its condition
   * (possibly turned Active) and, in network mode, the Active ties it received.
   */
  function Decided(p: Params, w: World, i: nat): (b: Agent)
    requires ParamsOk(p)
    requires i < |w.agents| && w.agents[i].Citizen?
  {
    var a := w.agents[i];
    var ap := Estimate(p, w, i, Occupants(w.grid, SeenCells(p, a))).0;
    var a' := a.(condition := NextCondition(a, ap), arrestProbability := Some(ap));
    if p.withNetwork then
      var one := Neighbours(LiveEdges(w.edges), i);
      var two := Ball2(LiveEdges(w.edges), i) - one;
      a'.(strongTiesReceived := |ActiveTies(w.agents, one)|, weakTiesReceived := |ActiveTies(w.agents, two)|)
    else
      a'
  }

  /** The pending set after a free citizen's decision: its live incident edges are added when it is already Active. */
  function Marked(p: Params, w: World, i: nat): set<Edge>
    requires i < |w.agents| && w.agents[i].Citizen?
  {
    if p.withNetwork && w.agents[i].condition == Active then w.pending + LiveIncident(w.edges, i) else w.pending
  }

  /**
   * The part of a free citizen's step before it moves: estimate its arrest probability, mark
   * its live incident edges for censorship when it is already Active (network mode only), and
   * possibly turn Active.
   */
  function CitizenDecision(p: Params, w: World, i: nat): World
    requires ParamsOk(p)
    requires i < |w.agents| && w.agents[i].Citizen?
  {
    w.(agents := w.agents[i := Decided(p, w, i)], pending := Marked(p, w, i))
  }

  /**
   * `Citizen.step`: a jailed citizen serves one tick of its sentence and does nothing else;
   * otherwise it looks around, decides (`CitizenDecision`) and moves to a drawn empty
   * neighbouring cell when movement is on.
   */
  function CitizenRule(p: Params, w: World, i: nat, d: AgentDraw): World
    requires ParamsOk(p)
    requires i < |w.agents| && w.agents[i].Citizen?
  {
    var a := w.agents[i];
    if a.jailSentence > 0 then
      w.(agents := w.agents[i := a.(jailSentence := a.jailSentence - 1)])
    else
      var target := Pick(p.movement, EmptyCells(w.grid, SeenCells(p, a)), d.move);
      MoveTo(CitizenDecision(p, w, i), i, target)
  }

  /** The arrest part of `Cop.step`: the arrestee gets the sentence and turns Quiescent. */
  function Arrest(w: World, j: nat, sentence: nat): World
  {
    if j < |w.agents| && w.agents[j].Citizen? then
      w.(agents := w.agents[j := w.agents[j].(jailSentence := sentence, condition := Quiescent)])
    else w
  }

  /** The arrestee a cop draws, if any of its neighbours is Active and not jailed. */
  function Arrestee(p: Params, w: World, i: nat, d: AgentDraw): Option<nat>
    requires i < |w.agents|
  {
    var active := ActiveIds(w.agents, Occupants(w.grid, SeenCells(p, w.agents[i])));
    if |active| > 0 then Some(active[d.arrestee % |active|]) else None
  }

  /** `random.randint(0, max_jail_term)`, from the raw draw. */
  function Sentence(p: Params, d: AgentDraw): nat
  {
    d.sentence % (p.maxJailTerm + 1)
  }

  /** The arrest part of `Cop.step`, on the world as the cop found it. */
  function CopArrest(p: Params, w: World, i: nat, d: AgentDraw): World
    requires i < |w.agents|
  {
    match Arrestee(p, w, i, d)
    case None => w
    case Some(j) => Arrest(w, j, Sentence(p, d))
  }

  /**
   * `Cop.step`: arrest one drawn Active, non-jailed neighbour (if there is one), then move
   * to a drawn empty neighbouring cell, from the empty cells seen before the arrest.
   */
  function CopRule(p: Params, w: World, i: nat, d: AgentDraw): World
    requires i < |w.agents| && w.agents[i].Cop?
  {
    var target := Pick(p.movement, EmptyCells(w.grid, SeenCells(p, w.agents[i])), d.move);
    MoveTo(CopArrest(p, w, i, d), i, target)
  }

  /** One activation by the scheduler: dispatch on the agent's breed. */
  function Activate(p: Params, w: World, i: nat, d: AgentDraw): World
    requires ParamsOk(p)
  {
    if i >= |w.agents| then w
    else if w.agents[i].Citizen? then CitizenRule(p, w, i, d)
    else CopRule(p, w, i, d)
  }

  /** `schedule.step()`: the activations of one tick, in the scheduler's order. */
  function Activated(p: Params, w: World, order: seq<nat>, draws: seq<AgentDraw>): World
    requires ParamsOk(p)
    requires |order| == |draws|
  {
    if order == [] then w
    else
      var n := |order| - 1;
      Activate(p, Activated(p, w, order[..n], draws[..n]), order[n], draws[n])
  }
}
