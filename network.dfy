/**
 * The small-world influence network over citizen ids: an undirected edge map keyed by
 * canonical `(min, max)` pairs, each edge carrying its censorship countdown
 * (`G[u][v]['censor_steps']`), with the 2-hop ego view, the per-tick decay and the
 * resolution of the pending-censorship set.
 */
module Network {

  /** An undirected edge, stored as the pair `(lo, hi)`. */
  datatype Edge = Edge(lo: nat, hi: nat)

  /** The edge map of the network: each edge's censorship countdown. */
  type Countdowns = map<Edge, nat>

  /** `(u, v) if u < v else (v, u)`: the canonical key of the edge between `u` and `v`. */
  function Canon(u: nat, v: nat): (e: Edge)
    ensures e.lo <= e.hi
    ensures {e.lo, e.hi} == {u, v}
  {
    if u < v then Edge(u, v) else Edge(v, u)
  }

  /** Every edge is stored with its smaller endpoint first (no self-loops). */
  predicate Canonical(es: set<Edge>)
  {
    forall e :: e in es ==> e.lo < e.hi
  }

  function Endpoints(es: set<Edge>): set<nat>
  {
    (set e | e in es :: e.lo) + (set e | e in es :: e.hi)
  }

  /** The nodes adjacent to `x` in the graph with edge set `es`. */
  function Neighbours(es: set<Edge>, x: nat): (r: set<nat>)
    ensures forall y :: y in r <==> y != x && Canon(x, y) in es
  {
    forall y | y != x && Canon(x, y) in es ensures y in Endpoints(es) {
      var e := Canon(x, y);
      assert y == e.lo || y == e.hi;
    }
    set y | y in Endpoints(es) && y != x && Canon(x, y) in es
  }

  /** `y` is at distance at most 2 from `c` in the graph with edge set `es`. */
  predicate Within2(es: set<Edge>, c: nat, y: nat)
  {
    y == c || y in Neighbours(es, c) || exists m :: m in Neighbours(es, c) && y in Neighbours(es, m)
  }

  /** The node set of `ego_graph(G, c, radius=2)`: the 2-hop breadth-first ball around `c`. */
  function Ball2(es: set<Edge>, c: nat): (b: set<nat>)
    ensures forall y :: y in b <==> Within2(es, c, y)
  {
    {c} + Neighbours(es, c) + (set m, y | m in Neighbours(es, c) && y in Neighbours(es, m) :: y)
  }

  /** The subgraph induced by the node set `b`: the edges with both endpoints in `b`. */
  function Induced(g: Countdowns, b: set<nat>): (h: Countdowns)
    ensures forall e :: e in h <==> e in g && e.lo in b && e.hi in b
    ensures forall e :: e in h ==> h[e] == g[e]
  {
    map e | e in g && e.lo in b && e.hi in b :: g[e]
  }

  /** A graph with its own node set, as `ego_graph` returns it. */
  datatype Graph = Graph(nodes: set<nat>, edges: Countdowns)

  /** `ego_graph(g, c, radius=2)`: the nodes within 2 hops of `c` and the edges among them. */
  function EgoGraph(g: Countdowns, c: nat): (ego: Graph)
    ensures c in ego.nodes
    ensures ego.edges.Keys <= g.Keys
  {
    var b := Ball2(g.Keys, c);
    Graph(b, Induced(g, b))
  }

  /** The edges that are not censored: those whose countdown is 0. */
  function LiveEdges(g: Countdowns): (es: set<Edge>)
    ensures es <= g.Keys
    ensures forall e :: e in es <==> e in g && g[e] == 0
  {
    set e | e in g && g[e] == 0
  }

  /** The live edges of `g` incident to `c`, each as its canonical pair. */
  function LiveIncident(g: Countdowns, c: nat): set<Edge>
  {
    set y | y in Neighbours(LiveEdges(g), c) :: Canon(c, y)
  }

  /**
   * On a canonical edge map the edges a citizen marks are exactly its live incident edges:
   * each live edge `(lo, hi)` with `c` at one end, and no other pair.
   */
  lemma LiveIncidentExact(g: Countdowns, c: nat)
    requires Canonical(g.Keys)
    ensures forall e :: e in LiveIncident(g, c) <==> e in LiveEdges(g) && (e.lo == c || e.hi == c)
  {
    forall e | e in LiveEdges(g) && (e.lo == c || e.hi == c) ensures e in LiveIncident(g, c) {
      var y := if e.lo == c then e.hi else e.lo;
      assert Canon(c, y) == e;
      assert y in Neighbours(LiveEdges(g), c);
    }
  }

  lemma NeighboursMonotone(es: set<Edge>, fs: set<Edge>, x: nat)
    requires es <= fs
    ensures Neighbours(es, x) <= Neighbours(fs, x)
  {
  }

  /**
   * Pruning the censored edges out of the radius-2 ego graph keeps exactly the live paths of
   * length at most 2 from `c`: the 2-hop ball over what is left is the 2-hop live ball.
   */
  lemma PrunedBall(g: Countdowns, c: nat, pruned: Countdowns)
    requires pruned.Keys == EgoGraph(g, c).edges.Keys * LiveEdges(g)
    ensures Ball2(pruned.Keys, c) == Ball2(LiveEdges(g), c)
  {
    var live := LiveEdges(g);
    var b1 := Ball2(g.Keys, c);
    var p := pruned.Keys;
    assert p <= live;
    NeighboursMonotone(p, live, c);
    // A live edge between two nodes of the first ball survives the pruning.
    forall u, v | u != v && Canon(u, v) in live && u in b1 && v in b1
      ensures Canon(u, v) in p
    {
      var e := Canon(u, v);
      assert e.lo in b1 && e.hi in b1;
    }
    forall y | Within2(live, c, y) ensures Within2(p, c, y) {
      if y in Neighbours(live, c) {
        assert y in Neighbours(g.Keys, c);
        assert Canon(c, y) in p;
      } else if y != c {
        var m :| m in Neighbours(live, c) && y in Neighbours(live, m);
        assert m in Neighbours(g.Keys, c) && y in Neighbours(g.Keys, m);
        assert m in b1 && y in b1;
        assert Canon(c, m) in p && Canon(m, y) in p;
        assert m in Neighbours(p, c) && y in Neighbours(p, m);
      }
    }
    forall y | Within2(p, c, y) ensures Within2(live, c, y) {
      if y != c && y !in Neighbours(p, c) {
        var m :| m in Neighbours(p, c) && y in Neighbours(p, m);
        NeighboursMonotone(p, live, m);
      }
    }
  }

  /**
   * The two-pass ego view. Take the radius-2 ego graph of `g`, remove its censored edges,
   * and take the radius-2 ego graph of what is left: its nodes are exactly the 2-hop ball of
   * `c` over the live edges of `g`, and `c`'s neighbours in it are exactly `c`'s live neighbours.
   */
  lemma {:induction false} TwoPassEgo(g: Countdowns, c: nat, pruned: Countdowns)
    requires pruned.Keys == EgoGraph(g, c).edges.Keys * LiveEdges(g)
    ensures EgoGraph(pruned, c).nodes == Ball2(LiveEdges(g), c)
    ensures Neighbours(EgoGraph(pruned, c).edges.Keys, c) == Neighbours(LiveEdges(g), c)
  {
    var live := LiveEdges(g);
    var b1 := Ball2(g.Keys, c);
    var b2 := Ball2(pruned.Keys, c);
    var e2 := Induced(pruned, b2).Keys;
    PrunedBall(g, c, pruned);
    assert e2 <= live;
    NeighboursMonotone(e2, live, c);
    forall y | y in Neighbours(live, c) ensures y in Neighbours(e2, c) {
      var e := Canon(c, y);
      assert y in Neighbours(g.Keys, c);
      assert e.lo in b1 && e.hi in b1;
      assert Within2(live, c, y);
      assert e.lo in b2 && e.hi in b2;
    }
  }

  /**
   * Pruning without the second expansion keeps nodes that censorship disconnected: with
   * `0 – 1` censored and `1 – 2` live, the pruned first ego graph of 0 still holds 2,
   * although 2 is not within two live hops of 0.
   */
  lemma SinglePassOverReaches()
    ensures var g := map[Edge(0, 1) := 3, Edge(1, 2) := 0];
            2 in EgoGraph(g, 0).nodes && 2 !in Ball2(LiveEdges(g), 0)
  {
    var g := map[Edge(0, 1) := 3, Edge(1, 2) := 0];
    assert Canon(0, 1) == Edge(0, 1) && Canon(1, 2) == Edge(1, 2);
    assert 1 in Neighbours(g.Keys, 0) && 2 in Neighbours(g.Keys, 1);
    assert LiveEdges(g) == {Edge(1, 2)};
    var live := LiveEdges(g);
    forall y | y != 0 ensures Canon(0, y) != Edge(1, 2) { }
    assert Neighbours(live, 0) == {};
  }

  /** The decay at the start of `step`: every positive countdown drops by one, zero stays zero. */
  function Decayed(g: Countdowns): (h: Countdowns)
    ensures h.Keys == g.Keys
    ensures forall e :: e in g && g[e] > 0 ==> h[e] == g[e] - 1
    ensures forall e :: e in g && g[e] == 0 ==> h[e] == 0
  {
    map e | e in g :: if g[e] > 0 then g[e] - 1 else 0
  }

  /**
   * The candidate edges that get censored: pending edges of the network whose countdown
   * is 0 and whose draw falls under `pLinkCensor`.
   */
  function NewlyCensored(g: Countdowns, pending: set<Edge>, draw: Edge -> real, pLinkCensor: real): (s: set<Edge>)
    ensures s <= pending * g.Keys
  {
    set e | e in pending && e in g && g[e] == 0 && draw(e) < pLinkCensor
  }

  /** The resolution at the end of `step`'s activations: each newly censored edge's countdown becomes `tCensor`. */
  function Resolved(g: Countdowns, pending: set<Edge>, draw: Edge -> real, pLinkCensor: real, tCensor: nat): (h: Countdowns)
    ensures h.Keys == g.Keys
    ensures forall e :: e in g && g[e] > 0 ==> h[e] == g[e]
    ensures forall e :: e in g && e !in pending ==> h[e] == g[e]
    ensures forall e :: e in g && h[e] != g[e] ==> e in NewlyCensored(g, pending, draw, pLinkCensor) && h[e] == tCensor
    ensures forall e :: e in NewlyCensored(g, pending, draw, pLinkCensor) ==> h[e] == tCensor
  {
    map e | e in g :: if e in NewlyCensored(g, pending, draw, pLinkCensor) then tCensor else g[e]
  }

  /**
   * The network part of `ticks` consecutive steps: decay at the start of each step, then the
   * resolution of that step's pending set with that step's draws.
   */
  function NetworkTicks(g: Countdowns, pendings: seq<set<Edge>>, draws: seq<Edge -> real>,
                        pLinkCensor: real, tCensor: nat): Countdowns
    requires |pendings| == |draws|
  {
    if pendings == [] then g
    else
      var n := |pendings| - 1;
      var before := NetworkTicks(g, pendings[..n], draws[..n], pLinkCensor, tCensor);
      Resolved(Decayed(before), pendings[n], draws[n], pLinkCensor, tCensor)
  }

  /** One more step of the network: the decay, then the resolution of that step's pending set. */
  lemma NetworkTicksSnoc(g: Countdowns, pendings: seq<set<Edge>>, draws: seq<Edge -> real>,
                         pending: set<Edge>, draw: Edge -> real, pLinkCensor: real, tCensor: nat)
    requires |pendings| == |draws|
    ensures NetworkTicks(g, pendings + [pending], draws + [draw], pLinkCensor, tCensor)
              == Resolved(Decayed(NetworkTicks(g, pendings, draws, pLinkCensor, tCensor)), pending, draw, pLinkCensor, tCensor)
  {
    assert (pendings + [pending])[..|pendings|] == pendings;
    assert (draws + [draw])[..|draws|] == draws;
  }

  /**
   * An edge whose countdown is `k > 0` counts down by exactly one per step, whatever the
   * pending sets and draws: it is neither re-drawn nor reset while it is censored.
   */
  lemma {:induction false} CensorshipCountsDown(g: Countdowns, e: Edge, pendings: seq<set<Edge>>,
                                                draws: seq<Edge -> real>, pLinkCensor: real, tCensor: nat)
    requires |pendings| == |draws|
    requires e in g && |pendings| < g[e]
    ensures e in NetworkTicks(g, pendings, draws, pLinkCensor, tCensor)
    ensures NetworkTicks(g, pendings, draws, pLinkCensor, tCensor)[e] == g[e] - |pendings|
  {
    if pendings != [] {
      var n := |pendings| - 1;
      CensorshipCountsDown(g, e, pendings[..n], draws[..n], pLinkCensor, tCensor);
    }
  }

  /**
   * An edge censored for `tCensor > 0` steps at the end of a step is left out of the live
   * network (and so of every ego view) during the next `tCensor - 1` steps, and is live again
   * in the `tCensor`-th step after that, once that step's decay has run.
   */
  lemma CensoredEdgeRestored(g: Countdowns, e: Edge, pendings: seq<set<Edge>>,
                             draws: seq<Edge -> real>, pLinkCensor: real, tCensor: nat)
    requires |pendings| == |draws|
    requires e in g && g[e] == tCensor && 0 < |pendings| + 1 <= tCensor
    ensures var now := Decayed(NetworkTicks(g, pendings, draws, pLinkCensor, tCensor));
            e in now && (e in LiveEdges(now) <==> |pendings| + 1 == tCensor)
  {
    CensorshipCountsDown(g, e, pendings, draws, pLinkCensor, tCensor);
  }
}
