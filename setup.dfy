/**
 * How the model is populated and wired at construction: each grid cell, in `coord_iter`
 * order, gets a cop, a citizen or nothing from its draws; agents are numbered in that
 * order; and the small-world graph built on `0 .. n-1` is relabelled onto the citizens' ids,
 * every edge starting uncensored.
 */
module Setup {

  import opened Wrappers
  import opened Space
  import opened Network
  import opened Agents

  /**
   * The draws the visit of one cell consumes: the cop roll, the citizen roll (only looked at
   * when the cop roll fails), and a citizen's hardship and risk aversion.
   */
  datatype CellDraw = CellDraw(copRoll: real, citizenRoll: real, hardship: real, riskAversion: real)

  /** The agent created on cell `c`: a cop when its roll is under the cop density, else a citizen when its roll is under the sum of the densities. */
  function NewAgent(p: Params, copDensity: real, citizenDensity: real, c: Cell, d: CellDraw): (r: Option<Agent>)
    ensures r.Some? ==> r.value.pos == c
    ensures r.Some? && r.value.Cop? <==> d.copRoll < copDensity
    ensures r.Some? && r.value.Citizen? <==> !(d.copRoll < copDensity) && d.citizenRoll < copDensity + citizenDensity
  {
    if d.copRoll < copDensity then Some(Cop(c, p.copVision))
    else if d.citizenRoll < copDensity + citizenDensity then Some(NewCitizen(p, c, d.hardship, d.riskAversion))
    else None
  }

  /** The agents created by visiting `cells` in order; an agent's id is its index. */
  function Population(p: Params, copDensity: real, citizenDensity: real, draw: Cell -> CellDraw,
                      cells: seq<Cell>): (agents: seq<Agent>)
    ensures |agents| <= |cells|
    ensures forall j :: 0 <= j < |agents| ==> agents[j].pos in cells
  {
    if cells == [] then []
    else
      var c := cells[|cells| - 1];
      var before := Population(p, copDensity, citizenDensity, draw, cells[..|cells| - 1]);
      assert forall j :: 0 <= j < |before| ==> before[j].pos in cells;
      match NewAgent(p, copDensity, citizenDensity, c, draw(c))
      case None => before
      case Some(a) => before + [a]
  }

  /** A freshly created agent: a citizen Quiescent, free, with no estimate and no ties yet. */
  predicate Fresh(a: Agent)
  {
    a.Citizen? ==>
      a.condition == Quiescent && a.jailSentence == 0 && a.arrestProbability == None
      && a.strongTiesReceived == 0 && a.weakTiesReceived == 0
  }

  /** `list_citizen_ids`: the ids of the citizens, in increasing order. */
  function CitizenIds(agents: seq<Agent>): (ids: seq<nat>)
    ensures forall j :: j in ids <==> 0 <= j < |agents| && agents[j].Citizen?
    ensures forall k :: 0 <= k < |ids| ==> ids[k] < |agents|
  {
    if agents == [] then []
    else
      var n := |agents| - 1;
      var ids := CitizenIds(agents[..n]);
      assert forall j :: 0 <= j < n ==> agents[..n][j] == agents[j];
      if agents[n].Citizen? then ids + [n] else ids
  }

  /** `list_citizen_ids` is strictly increasing, so distinct nodes get distinct citizen ids. */
  lemma {:induction false} CitizenIdsIncreasing(agents: seq<Agent>)
    ensures forall k, l :: 0 <= k < l < |CitizenIds(agents)| ==> CitizenIds(agents)[k] < CitizenIds(agents)[l]
  {
    if agents != [] {
      var n := |agents| - 1;
      var before := CitizenIds(agents[..n]);
      var ids := CitizenIds(agents);
      CitizenIdsIncreasing(agents[..n]);
      assert ids == before + (if agents[n].Citizen? then [n] else []);
      forall k, l | 0 <= k < l < |ids| ensures ids[k] < ids[l] {
        if l < |before| {
          assert ids[k] == before[k] && ids[l] == before[l];
        } else {
          assert ids[k] == before[k] < n == ids[l];
        }
      }
    }
  }

  /** The graph generator's output: a simple graph on the nodes `0 .. n-1`, as canonical pairs. */
  predicate SimpleOn(edges: set<Edge>, n: nat)
  {
    forall e :: e in edges ==> e.lo < e.hi < n
  }

  /**
   * `relabel_nodes` with `dict(zip(G, list_citizen_ids))` followed by `set_edge_attributes(G,
   * 0, "censor_steps")`: node `k` becomes the `k`-th citizen id and every edge starts at 0.
   */
  function Relabel(edges: set<Edge>, ids: seq<nat>): (g: Countdowns)
    requires SimpleOn(edges, |ids|)
    ensures forall f :: f in g ==> g[f] == 0
    ensures forall e :: e in edges ==> Edge(ids[e.lo], ids[e.hi]) in g
    ensures forall f :: f in g ==> exists e :: e in edges && f == Edge(ids[e.lo], ids[e.hi])
    ensures |g| == 0 <==> edges == {}
  {
    var es := set e | e in edges :: Edge(ids[e.lo], ids[e.hi]);
    var g := map f | f in es :: 0;
    if edges == {} then g
    else
      var e :| e in edges;
      assert Edge(ids[e.lo], ids[e.hi]) in g;
      g
  }

  /** The relabelled graph joins citizens only, as canonical pairs, all uncensored. */
  lemma RelabelOk(p: Params, agents: seq<Agent>, edges: set<Edge>)
    requires SimpleOn(edges, |CitizenIds(agents)|)
    ensures NetworkOk(p, agents, Relabel(edges, CitizenIds(agents)))
  {
    var ids := CitizenIds(agents);
    var g := Relabel(edges, ids);
    forall f | f in g ensures f.lo < f.hi < |agents| && agents[f.lo].Citizen? && agents[f.hi].Citizen? {
      var e :| e in edges && f == Edge(ids[e.lo], ids[e.hi]);
      RelabelledEdgeOk(agents, e);
    }
  }

  /** A generator edge `lo < hi` becomes an edge between two citizens, still in canonical order. */
  lemma RelabelledEdgeOk(agents: seq<Agent>, e: Edge)
    requires e.lo < e.hi < |CitizenIds(agents)|
    ensures CitizenIds(agents)[e.lo] < CitizenIds(agents)[e.hi] < |agents|
    ensures agents[CitizenIds(agents)[e.lo]].Citizen? && agents[CitizenIds(agents)[e.hi]].Citizen?
  {
    var ids := CitizenIds(agents);
    CitizenIdsIncreasing(agents);
    assert ids[e.lo] in ids && ids[e.hi] in ids;
  }
}
