# Epstein civil violence on a small-world network, in Dafny

This project models the per-tick engine of an agent-based simulation of civil violence. It
follows the Epstein model, extended with a small-world influence network and link
censorship.

Agents live on a toroidal grid:

- **Citizens** compare their grievance, net of risk, with a threshold. They turn from
  Quiescent to Active when it is exceeded.
- **Cops** jail one Active, free citizen they can see.

In network mode, a citizen's arrest estimate also counts Active ties among its live one-hop
neighbours (weighted by `strong_weak_ratio`) and its two-hop neighbours. A citizen that is
already Active when activated marks its live incident edges for censorship. At the end of the
tick each marked edge that is still live is censored for `t_censor` steps with probability
`p_link_censor`. Censored edges are invisible to every ego view until their countdown runs
out.

## How the model is laid out

- `space.dfy` (`Space`) is the toroidal grid as mesa provides it:
  - the cells in `coord_iter` order;
  - the Moore neighbourhood;
  - the occupants of cells and the empty cells among them;
  - a random choice, read from an oracle value.
- `network.dfy` (`Network`) is the influence network. It is a map from canonical
  `(lo, hi)` edges to their censorship countdowns. It covers:
  - the radius-2 ego graph and the live edges;
  - the per-tick decay and the resolution of the pending set;
  - what censorship does over several ticks.
- `agents.dfy` (`Agents`) holds:
  - the agent records, in an arena indexed by `unique_id`;
  - the world state: agents, grid occupancy, countdowns and the pending set
    `link_to_censor`;
  - its invariants;
  - the rules of `Citizen.step` and `Cop.step`, as functions (`CitizenRule`, `CopRule`,
    `Activate`, `Activated`).
- `perception.dfy` (`Perception`) holds the loops an agent runs before it acts:
  - `update_neighbors` and `prepare_ego`;
  - the two arrest-probability estimates;
  - the cop's search for Active neighbours.

  Each loop is a method proved against the specification functions of `Agents`.
- `agent_properties.dfy` (`AgentProperties`) holds what the rules promise:
  - jail countdown, one-way activation, exact censorship marks;
  - at most one arrest per cop;
  - the preserved world invariants, for one activation and for a whole schedule.
- `setup.dfy` (`Setup`) covers construction:
  - the population created cell by cell;
  - the citizen-id list;
  - relabelling the generator's graph onto the citizens.
- `metrics.dfy` (`Metrics`) holds the reported counts and averages as functions, and how
  they partition and bound each other.
- `model.dfy` (`Model`) holds:
  - the tick as a function (`Tick`), and consecutive ticks (`Ticks`), whose countdowns are
    proved to evolve as the network's own (`TicksFollowNetwork`);
  - the class `EpsteinCivilViolence`, with the fields the source's model object updates in
    place, its construction, its `step` and the static count and average helpers;
  - the agents' `step`s as class methods on the arena.

  Every state-changing method ensures that the new `State()` is the matching rule applied
  to `old(State())`. The class invariant `Valid()` is kept by `Step`.

Randomness, and the services the code calls but does not define, become inputs:

- the activation order of one tick (`order`) and each activation's draws (`AgentDraw`):
  the arrestee index, the raw sentence and the target-cell index;
- the draws of each grid cell at construction (`CellDraw`);
- one censorship draw per pending edge (`Edge -> real`);
- the Watts–Strogatz generator as `smallWorld: nat -> set<Edge>`, required to return a
  simple graph on `0 .. n-1`;
- `1 - exp(-arrest_prob_constant * n)` as the parameter `arrestCurve: nat -> real`.

The model follows the code where the code and its documented intent differ:

- Construction fails only when the cop and citizen densities sum to more than 1. A sum of
  exactly 1 is accepted (`model.py:137-138`).
- The edges added to `link_to_censor` are those of citizens that were *already* Active when
  activated. A citizen turns Active only after the marking (`agent.py:92-101`), so one that
  turns Active this tick marks nothing.
- There is no check that the population fits the grid. At most one agent is created per
  cell, so it always fits.
- Every scheduler commits an agent's effects at once. The model takes the order of one tick
  as an input, which covers sequential, shuffled and "simultaneous" activation alike.
- The two-hop set of `prepare_ego` contains the citizen itself (`agent.py:134`). An Active,
  free citizen therefore receives itself as a weak tie. This behaviour is kept and stated
  by `AgentProperties.SelfCountedAsWeakTie`.
- Building the initial data collection divides by the edge count (`model.py:171`,
  `model.py:289`). A network without edges therefore makes construction fail, which
  `Create` returns as the error `NoEdges`.

## Model

| member | source | states |
|---|---|---|
| Model.EpsteinCivilViolence.Create | epstein_civil_violence/model.py:135-173 | fails with `DensityTooHigh` exactly when the densities sum to more than 1, with `NoEdges` exactly when the density check passes and the generated graph has no edge; otherwise a fresh, valid model at iteration 0, running, whose agents are the population built over `coord_iter` order, all freshly created, whose `citizen_count` and `cop_count` are the citizen and cop totals of that population, and whose network is the relabelled graph |
| Model.EpsteinCivilViolence.constructor | epstein_civil_violence/model.py:84-110 | the counters start at 0, the pending set is empty, `number_of_edges` is the edge count, `running` holds, and `citizen_count` (the sum of `count_agents`) and `cop_count` are the citizen and cop totals; the new object is `Valid()` |
| Model.EpsteinCivilViolence.PlacePopulation | epstein_civil_violence/model.py:135-161 | the agents are the population created over every cell, the citizen-id list is `list_citizen_ids`, every agent stands on its cell and each cell holds at most one, the occupied cells are exactly those whose draws create an agent, and every agent agrees with the parameters and is freshly created |
| Model.EpsteinCivilViolence.VisitCells | epstein_civil_violence/model.py:139-161 | after visiting an ordered sequence of in-bounds cells, the built agents, grid and id list are exactly those of the population over those cells |
| Model.EpsteinCivilViolence.VisitCell | epstein_civil_violence/model.py:140-161 | one more cell visited extends the population, the grid and the id list with the agent (if any) that cell's draws create, under the next unique id |
| Model.PlaceAgent | epstein_civil_violence/model.py:140-161 | adding the created agent under the next id (the number of agents so far) and putting it on its cell keeps the placement invariant one cell further |
| Model.PlaceNothing | epstein_civil_violence/model.py:139-145 | a cell whose draws create no agent leaves everything built and keeps the invariant one cell further |
| Model.PlacedAll | epstein_civil_violence/model.py:139-161 | once every cell is visited, the population is complete and the occupied cells are exactly the in-bounds cells whose draws create an agent |
| Model.CitizenIdsAppend | epstein_civil_violence/model.py:156 | appending an agent appends its id to the citizen-id list exactly when it is a citizen |
| Model.EpsteinCivilViolence.CountTypeCitizens | epstein_civil_violence/model.py:215-228 | the count is the number of citizens in the condition, leaving out jailed ones when asked |
| Model.EpsteinCivilViolence.CountJailed | epstein_civil_violence/model.py:230-239 | the count is the number of citizens with a positive sentence |
| Model.EpsteinCivilViolence.CountCitizens | epstein_civil_violence/model.py:241-250 | the count is the number of citizens |
| Model.EpsteinCivilViolence.CountCops | epstein_civil_violence/model.py:252-261 | the count is the number of cops |
| Model.EpsteinCivilViolence.ActiveLinkRatio | epstein_civil_violence/model.py:287-289 | defined exactly when the network has an edge; then the ratio times the edge count is the pending-link count, and it lies in `[0, 1]` when no more links are pending than there are edges |
| Model.EpsteinCivilViolence.GetAverageJailTerm | epstein_civil_violence/model.py:295-307 | 0 when the stored jail count is 0, else the sum of positive sentences over that count |
| Model.EpsteinCivilViolence.GetAverageStrongTiesReceival | epstein_civil_violence/model.py:309-323 | 0 when no strong tie was received, else the mean over free citizens; a strong tie received implies some citizen is free, so the division is defined |
| Model.EpsteinCivilViolence.GetAverageWeakTiesReceival | epstein_civil_violence/model.py:325-339 | as for strong ties, for the weak ties |
| Model.EpsteinCivilViolence.DecayCensorship | epstein_civil_violence/model.py:181-183 | the network becomes its decay: every positive countdown drops by 1 and nothing else changes |
| Model.EpsteinCivilViolence.ResolveCensorship | epstein_civil_violence/model.py:191-195 | the network becomes its resolution over `link_to_censor`, and `censored_links` grows by the number of newly censored edges |
| Model.ResolveLinks | epstein_civil_violence/model.py:191-195 | the loop over the pending edges, with each edge's own draw, yields the resolved countdowns and the number of edges it censored |
| Model.EpsteinCivilViolence.Step | epstein_civil_violence/model.py:175-213 | from a valid model: the world becomes the tick of the old world; `active_links` is the size of the pending set after the schedule, `activated_link_ratio` its ratio to the edge count, and `censored_links` the number of edges that tick censored; the reported counts agree with the new agents; the iteration grows by 1; `running` holds exactly while the iteration is at most `max_iters`; the model stays valid, so `citizen_count` and `cop_count` are still the citizen and cop totals |
| Model.EpsteinCivilViolence.AdvanceSettled | epstein_civil_violence/model.py:179-197 | the world part of `step` takes a settled world (valid, nothing pending, edge count unchanged and positive) to its tick, which is settled again, with the link counters of that tick, the citizen and cop totals kept and the clock untouched |
| Model.EpsteinCivilViolence.Advance | epstein_civil_violence/model.py:180-197 | reset, decay, schedule, link counting, resolution and emptying of `link_to_censor` take the world to its tick; the pending-link count is at most the edge count |
| Model.EpsteinCivilViolence.UpdateCounts | epstein_civil_violence/model.py:202-207 | the reported counts and averages are those of the agents; active plus quiescent plus jailed is the number of citizens; the average jail term is 0 exactly when no one is jailed, and otherwise lies in `[1, max_jail_term]` |
| Model.EpsteinCivilViolence.FinishStep | epstein_civil_violence/model.py:200-213 | the counts refreshed and the iteration advanced, the world left as it was |
| Model.EpsteinCivilViolence.NextIteration | epstein_civil_violence/model.py:211-213 | the iteration grows by 1 and `running` is cleared exactly when it passes `max_iters` |
| Model.EpsteinCivilViolence.ScheduleStep | epstein_civil_violence/model.py:185 | the world becomes the fold of the activations over the scheduler's order |
| Model.EpsteinCivilViolence.ActivateAgent | epstein_civil_violence/model.py:185 | one activation dispatches to the citizen or cop step, by breed |
| Model.TickPreserves | epstein_civil_violence/model.py:179-197 | a tick keeps the world valid, keeps the network's edge set and the number of agents, keeps every agent's kind and fixed attributes, and empties the pending set; before resolution the pending set holds network edges only, and the countdowns are the decayed ones |
| Model.TickKeepsTotals | epstein_civil_violence/model.py:172-173 | a tick keeps the number of citizens and of cops, so `citizen_count` and `cop_count` stay right |
| Model.TickSettles | epstein_civil_violence/model.py:175-197 | a tick takes a settled world to a settled world |
| Model.CensorDraws | epstein_civil_violence/model.py:191-195 | one censorship draw per tick, each that tick's own |
| Model.TickPendings | epstein_civil_violence/model.py:185-191 | one pending set per tick, the one that tick's schedule hands to the resolution |
| Model.TicksKeepValid | epstein_civil_violence/model.py:175-197 | any number of consecutive ticks keep the world valid |
| Model.TicksFollowNetwork | epstein_civil_violence/model.py:179-197 | over consecutive ticks the countdowns are exactly those of the network alone: each tick's decay, then the resolution of that tick's pending set with its draws |
| Model.TickFollowsNetwork | epstein_civil_violence/model.py:179-197 | one tick's countdowns are the resolution, over the pending set its schedule leaves, of the decayed countdowns; the world stays valid |
| Model.TickedEdgeRestored | epstein_civil_violence/model.py:179-197 | an edge whose countdown a tick leaves at `t_censor` is out of the live network in the next `t_censor - 1` ticks of the model, whatever they draw, and live again in the tick after |
| Model.CensoredLinkRestored | epstein_civil_violence/model.py:185-197 | a link a tick censors is out of the live network the next `t_censor - 1` ticks see and live again in the one after |
| Model.EpsteinCivilViolence.CitizenStep | epstein_civil_violence/agent.py:75-119 | the world becomes `CitizenRule` of the old world: jailed, one tick served; free, the decision then the move |
| Model.EpsteinCivilViolence.DecideWithNetwork | epstein_civil_violence/agent.py:83-101 | the new record is the decided one; the one-hop set is the citizen's live neighbours; the empty cells are those it sees |
| Model.EpsteinCivilViolence.DecideSpatially | epstein_civil_violence/agent.py:108-115 | the new record is the decided one without the network; the empty cells are those it sees |
| Model.EpsteinCivilViolence.MarkEgoEdges | epstein_civil_violence/agent.py:92-96 | `link_to_censor` grows by the canonical pair of every edge to a one-hop neighbour |
| Model.EpsteinCivilViolence.MoveAgent | epstein_civil_violence/agent.py:104-106 | the agent leaves its cell and stands on the new one, and the grid follows |
| Model.EpsteinCivilViolence.CopStep | epstein_civil_violence/agent.py:240-261 | the world becomes `CopRule` of the old world: the arrest, then the move |
| Model.EpsteinCivilViolence.CopLooks | epstein_civil_violence/agent.py:245-256 | the arrestee is the one drawn among the Active, free citizens in vision, and is a citizen; the empty cells are those the cop sees |
| Setup.NewAgent | epstein_civil_violence/model.py:140-155 | a cop exactly when the cop roll is under the cop density; otherwise a citizen exactly when the second roll is under the sum of the densities; the agent stands on the cell |
| Setup.Population | epstein_civil_violence/model.py:139-161 | no more agents than cells, each on one of them |
| Setup.CitizenIds | epstein_civil_violence/model.py:156 | the ids listed are exactly those of the citizens |
| Setup.CitizenIdsIncreasing | epstein_civil_violence/model.py:156 | the list of citizen ids is strictly increasing |
| Setup.Relabel | epstein_civil_violence/model.py:166-167 | every generator edge becomes the edge between the matching citizen ids, and nothing else is an edge; every countdown starts at 0; there is an edge exactly when the generator made one |
| Setup.RelabelOk | epstein_civil_violence/model.py:165-167 | the relabelled network joins distinct citizens only, as canonical pairs, with countdowns within `t_censor` |
| Agents.NewCitizen | epstein_civil_violence/agent.py:60-73 | a new citizen is Quiescent, free, has no estimate and no ties received, keeps its place, hardship and risk aversion, and inside the grid agrees with the parameters, with grievance `hardship * (1 - legitimacy)` |
| Agents.FloorRatio | epstein_civil_violence/agent.py:185-189 | the floor of cops over actives is the natural number just below the ratio, at most the cop count, and 0 with no cop in vision |
| Agents.TieEstimate | epstein_civil_violence/agent.py:157-184 | the weighted actives count is at least 1, so the floor ratio is defined |
| Agents.ActiveIds | epstein_civil_violence/agent.py:246-253 | exactly the Active, free citizens among the ids, as many as are counted |
| Perception.UpdateNeighbors | epstein_civil_violence/agent.py:138-149 | the neighbourhood is the Moore neighbourhood at the agent's vision and the neighbours its occupants; the empty cells are exactly those in bounds, in that neighbourhood and unoccupied |
| Perception.PrepareEgo | epstein_civil_violence/agent.py:124-135 | the one-hop set is exactly the citizen's live neighbours; the two-hop set is everything within two live hops but not one hop, the citizen itself included |
| Perception.CensoredEdges | epstein_civil_violence/agent.py:126-129 | `ebunch` is exactly the edges of the ego graph with a positive countdown |
| Perception.RemoveEdges | epstein_civil_violence/agent.py:130 | the graph without those edges, the other countdowns unchanged |
| Perception.UpdateNetworkArrestProbability | epstein_civil_violence/agent.py:151-189 | the tie counters are the numbers of Active, free one-hop and two-hop ties; the actives count and arrest probability are those of `TieEstimate` |
| Perception.UpdateEstimatedArrestProbability | epstein_civil_violence/agent.py:191-210 | the actives count and arrest probability are those of the estimate from vision alone |
| Perception.CountActiveTies | epstein_civil_violence/agent.py:168-182 | the loop over a tie set counts exactly its Active, free members |
| Perception.CountActiveInVision | epstein_civil_violence/agent.py:160-166 | the loop over the neighbours counts exactly the Active, free citizens among them |
| Perception.ActiveNeighbors | epstein_civil_violence/agent.py:246-253 | the list is exactly the Active, free citizens among the neighbours, in their order |
| Perception.LiveEgoEdges | epstein_civil_violence/agent.py:126-130 | removing `ebunch` leaves exactly the live edges of the ego graph |
| Network.Canon | epstein_civil_violence/agent.py:95 | the canonical pair has the same two endpoints, the smaller first |
| Network.Neighbours | epstein_civil_violence/agent.py:132 | `y` is a neighbour of `x` exactly when `y != x` and their canonical pair is an edge |
| Network.Ball2 | epstein_civil_violence/agent.py:125 | the ego graph's nodes are exactly those within two hops |
| Network.EgoGraph | epstein_civil_violence/agent.py:125 | the ego graph contains its centre and only edges of the graph |
| Network.LiveEdges | epstein_civil_violence/agent.py:127-130 | exactly the edges whose countdown is 0 |
| Network.TwoPassEgo | epstein_civil_violence/agent.py:125-134 | after pruning the censored edges, the second ego graph's nodes are exactly the two-hop ball over the live network, and the centre's neighbours in it are exactly its live neighbours |
| Network.SinglePassOverReaches | epstein_civil_violence/agent.py:125-131 | without the second `ego_graph` a node cut off by censorship would stay in the view: a concrete graph shows it |
| Network.LiveIncidentExact | epstein_civil_violence/agent.py:93-96 | on canonical edges, the marked pairs are exactly the live edges with the citizen at one end |
| Network.Decayed | epstein_civil_violence/model.py:181-183 | same edges; a positive countdown drops by 1, 0 stays 0 |
| Network.NewlyCensored | epstein_civil_violence/model.py:191-195 | the censored edges are pending network edges |
| Network.Resolved | epstein_civil_violence/model.py:191-195 | same edges; countdowns that are positive or not pending are unchanged; a changed one is newly censored and set to `t_censor`, and every newly censored one is set to `t_censor` |
| Network.CensorshipCountsDown | epstein_civil_violence/model.py:181-195 | an edge with countdown `k` counts down by exactly one per step for its next `k - 1` steps, whatever is pending and drawn |
| Network.NetworkTicksSnoc | epstein_civil_violence/model.py:179-195 | one more step of the network is that step's decay, then the resolution of its pending set |
| Network.CensoredEdgeRestored | epstein_civil_violence/model.py:181-195 | an edge censored for `t_censor` steps is hidden during the next `t_censor - 1` decays and live again after the `t_censor`-th |
| Space.AllCells | epstein_civil_violence/model.py:139 | `coord_iter` yields `width * height` cells, exactly the in-bounds ones |
| Space.AllCellsOrdered | epstein_civil_violence/model.py:139 | `coord_iter` visits the cells in strictly increasing x-major order, so each once |
| Space.Neighbourhood | epstein_civil_violence/agent.py:143-145 | exactly the in-bounds cells within the radius on both torus axes, the centre excluded |
| Space.Occupants | epstein_civil_violence/agent.py:146 | no more ids than cells, each the occupant of one of the given cells, and the occupant of every given occupied cell listed |
| Space.EmptyCells | epstein_civil_violence/agent.py:147-149 | exactly the unoccupied cells among those given |
| Space.Pick | epstein_civil_violence/agent.py:104-105 | a move target exists exactly when movement is on and an empty cell is seen, and it is one of them |
| Metrics.CitizensPartition | epstein_civil_violence/model.py:215-250 | Quiescent and Active (jailed excluded) and jailed citizens add up to all citizens |
| Metrics.FreePartition | epstein_civil_violence/model.py:316-319 | the free citizens are the Quiescent plus the Active ones counted without the jailed |
| Metrics.AgentsPartition | epstein_civil_violence/model.py:241-261 | citizens plus cops are all agents |
| Metrics.AverageJailTermBounds | epstein_civil_violence/model.py:295-307 | with the jail count fresh, the average is 0 exactly when no one is jailed, else within `[1, max_jail_term]` |
| Metrics.StrongNeedsFree | epstein_civil_violence/model.py:316-323 | a strong tie received implies some citizen is free, so the average never divides by zero |
| Metrics.WeakNeedsFree | epstein_civil_violence/model.py:332-339 | the same for weak ties |
| AgentProperties.JailedCitizenServes | epstein_civil_violence/agent.py:79-81 | a jailed citizen's sentence drops by one; its condition and place, the grid, the network, the pending set and all other agents stay as they were |
| AgentProperties.CitizenActivation | epstein_civil_violence/agent.py:99-115 | an Active citizen stays Active and a jailed one keeps its condition; a free Quiescent one gets an estimate and turns Active exactly when grievance minus risk aversion times that estimate exceeds its threshold |
| AgentProperties.CitizenMarks | epstein_civil_violence/agent.py:92-96 | only a free citizen already Active, in network mode, changes the pending set, and then the set gains exactly its live incident edges |
| AgentProperties.CitizenMove | epstein_civil_violence/agent.py:104-106 | a free citizen moves only when movement is on, to an empty cell it sees; nothing but its position differs from the decision, and the world stays valid |
| AgentProperties.NoCopNoArrestRisk | epstein_civil_violence/agent.py:185-189 | with no cop in vision and a curve that is 0 at 0, the arrest estimate is 0 |
| AgentProperties.SelfCountedAsWeakTie | epstein_civil_violence/agent.py:131-135 | an Active, free citizen in network mode receives at least one weak tie: itself |
| AgentProperties.ArresteeSeen | epstein_civil_violence/agent.py:246-255 | the arrestee is an Active, free citizen, not the cop, standing in the cop's neighbourhood |
| AgentProperties.ArrestFrame | epstein_civil_violence/agent.py:254-258 | the arrest changes only the arrestee's sentence and condition, and nothing when no one is arrestable |
| AgentProperties.ArresteeExists | epstein_civil_violence/agent.py:246-255 | a cop draws an arrestee exactly when some Active, free citizen stands on a cell it sees |
| AgentProperties.CopArrestsAtMostOne | epstein_civil_violence/agent.py:240-261 | exactly one citizen is arrested when an Active, free one stands in view and none otherwise; at most one citizen changes, the arrestee, who gets a sentence in `[0, max_jail_term]` and turns Quiescent; the cop moves only when movement is on, to an empty cell it saw; nothing else changes |
| AgentProperties.ActivatePreserves | epstein_civil_violence/model.py:185 | each activation keeps the world valid, the countdowns, the pending links so far, every kind and fixed attribute (so grievance), and the place of every other agent |
| AgentProperties.ActivatedPreserves | epstein_civil_violence/model.py:185 | a whole schedule keeps the world valid and the countdowns, only adds pending links, and keeps every kind and fixed attribute |

## Left out

- `server.py` (the visualisation) and `run_batch.py` (parameter sweeps and file output) are
  not part of this model. They are user interface and I/O. `run_batch.py` also calls a
  `get_number_of_edges` that the model class does not define.
- The mesa `DataCollector` is left out. That covers the collects at `model.py:171` and
  `model.py:200`, what they store, and the stale `jail_count` they read. The model keeps
  only what the collect at construction implies: it cannot run on a network without edges.
- The trivial getters `count_quiescent`, `count_active`, `get_active_link` and
  `get_censored_link` are left out. They read a count or a field the model already states.
- The mesa scheduler classes are left out. The activation order of a tick is an input, and
  every scheduler in the code commits each agent's effects at once.
- The activation order need not be a permutation of the agents. The model also accepts
  orders that repeat or skip an agent, which no mesa scheduler produces; every statement
  holds for those too.
- The random stream and the order in which draws are taken from it are left out. Each draw
  is an explicit input.
- `math.exp` is the parameter `arrestCurve`. The model has no floating-point rounding:
  hardship, risk aversion, estimates and ratios are exact reals.
- The networkx Watts–Strogatz generator is the input `smallWorld`, assumed to return a
  simple graph on `0 .. n-1`. Its own errors (for instance a lattice degree above `n`) are
  not modelled.
- `Space.Neighbourhood`: mesa's `get_neighborhood` on a torus whose radius reaches half the
  grid may list a cell twice or include the centre. The model gives each cell once and
  never the centre.
- `Perception.UpdateNetworkArrestProbability`, `Agents.TieEstimate` and the rules that use
  them require `strong_weak_ratio >= 0` (the range the parameter is offered in). With a
  negative ratio the code's actives count could drop to 0 or below, dividing by zero.
- `AgentProperties.NoCopNoArrestRisk` requires `arrestCurve(0) == 0`, which
  `1 - exp(-k * 0)` meets, because the curve is a parameter.
- `get_agents_by_ids` filtering through `agent_dict` is not a separate operation. Every
  network node is a citizen id, so no id is ever filtered out. The model reads the arena
  directly.
- The attributes `actives_in_vision`, `neighborhood`, `neighbors`, `empty_neighbors` and the
  ego graph that the agents keep between calls are not stored. The methods return them,
  and nothing reads them outside the step that computed them.
- `from this import d, s` in `agent.py` has no effect on the simulation and is left out.
