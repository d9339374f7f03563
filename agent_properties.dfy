/**
 * Properties of the agent rules: what a citizen's and a cop's activation may change, the
 * one-way activation, the censorship marks, and the invariants of the world that every
 * activation, and so every tick's schedule, preserves.
 */
module AgentProperties {

  import opened Wrappers
  import opened Space
  import opened Network
  import opened Agents

  // ---------------------------------------------------------------------------
  // Keeping the world valid, piece by piece

  /** The network invariant only depends on which ids are citizens. */
  lemma NetworkOkKinds(p: Params, agents: seq<Agent>, agents': seq<Agent>, edges: Countdowns)
    requires NetworkOk(p, agents, edges) && |agents'| == |agents|
    requires forall j :: 0 <= j < |agents| ==> agents'[j].Citizen? == agents[j].Citizen?
    ensures NetworkOk(p, agents', edges)
  {
  }

  /** A world that changed only in ways each invariant tolerates is still valid. */
  lemma ValidFromParts(p: Params, w: World, w': World)
    requires WorldValid(p, w)
    requires |w'.agents| == |w.agents| && w'.edges == w.edges && w'.pending <= w.edges.Keys
    requires GridConsistent(w'.agents, w'.grid)
    requires forall j :: 0 <= j < |w'.agents| ==> AgentOk(p, w'.agents[j])
    requires forall j :: 0 <= j < |w'.agents| ==> w'.agents[j].Citizen? == w.agents[j].Citizen?
    ensures WorldValid(p, w')
  {
    NetworkOkKinds(p, w.agents, w'.agents, w.edges);
  }

  /** Changing an agent's record without moving it keeps the grid consistent. */
  lemma UpdateKeepsGrid(agents: seq<Agent>, grid: map<Cell, nat>, i: nat, b: Agent)
    requires GridConsistent(agents, grid)
    requires i < |agents| && b.pos == agents[i].pos
    ensures GridConsistent(agents[i := b], grid)
  {
  }

  /** Moving an agent onto an empty cell keeps the grid consistent. */
  lemma MoveKeepsGrid(agents: seq<Agent>, grid: map<Cell, nat>, i: nat, c: Cell)
    requires GridConsistent(agents, grid)
    requires i < |agents| && c !in grid
    ensures GridConsistent(agents[i := agents[i].(pos := c)], (grid - {agents[i].pos})[c := i])
  {
    var agents' := agents[i := agents[i].(pos := c)];
    var grid' := (grid - {agents[i].pos})[c := i];
    forall j | 0 <= j < |agents'| ensures agents'[j].pos in grid' && grid'[agents'[j].pos] == j {
      if j != i {
        assert agents[j].pos != agents[i].pos;
      }
    }
  }

  /** Moving an agent onto an empty cell of the grid keeps the world valid. */
  lemma MoveKeepsValid(p: Params, w: World, i: nat, c: Cell)
    requires WorldValid(p, w) && i < |w.agents|
    requires c !in w.grid && InBounds(c, p.width, p.height)
    ensures WorldValid(p, MoveTo(w, i, Some(c)))
  {
    var r := MoveTo(w, i, Some(c));
    MoveKeepsGrid(w.agents, w.grid, i, c);
    MoveKeepsAgentsOk(p, w.agents, i, c);
    ValidFromParts(p, w, r);
  }

  /** Moving an agent to a cell of the grid keeps every agent in agreement with the parameters, and of its kind. */
  lemma MoveKeepsAgentsOk(p: Params, agents: seq<Agent>, i: nat, c: Cell)
    requires i < |agents| && InBounds(c, p.width, p.height)
    requires forall j :: 0 <= j < |agents| ==> AgentOk(p, agents[j])
    ensures forall j :: 0 <= j < |agents| ==>
              AgentOk(p, agents[i := agents[i].(pos := c)][j]) && agents[i := agents[i].(pos := c)][j].Citizen? == agents[j].Citizen?
  {
  }

  /** Replacing an agent's record by one of the same kind, place and parameters keeps the world valid. */
  lemma UpdateKeepsValid(p: Params, w: World, i: nat, b: Agent, pending: set<Edge>)
    requires WorldValid(p, w) && i < |w.agents|
    requires b.pos == w.agents[i].pos && b.Citizen? == w.agents[i].Citizen? && AgentOk(p, b)
    requires pending <= w.edges.Keys
    ensures WorldValid(p, w.(agents := w.agents[i := b], pending := pending))
  {
    UpdateKeepsGrid(w.agents, w.grid, i, b);
    ValidFromParts(p, w, w.(agents := w.agents[i := b], pending := pending));
  }

  /** What `MoveTo` with a drawn cell does: only the mover's position and the grid change. */
  lemma MoveToFrame(w: World, i: nat, target: Option<Cell>)
    requires i < |w.agents|
    ensures var r := MoveTo(w, i, target);
            && |r.agents| == |w.agents| && r.edges == w.edges && r.pending == w.pending
            && r.agents[i] == w.agents[i].(pos := r.agents[i].pos)
            && (forall j :: 0 <= j < |w.agents| && j != i ==> r.agents[j] == w.agents[j])
            && (target.None? ==> r == w)
            && (target.Some? ==> r.agents[i].pos == target.value)
  {
  }

  // ---------------------------------------------------------------------------
  // Citizen

  /**
   * A jailed citizen only serves one tick of its sentence: its condition and position, the
   * grid, the network and the pending set stay as they were, and so does every other agent.
   */
  lemma JailedCitizenServes(p: Params, w: World, i: nat, d: AgentDraw)
    requires ParamsOk(p) && i < |w.agents| && w.agents[i].Citizen? && w.agents[i].jailSentence > 0
    ensures var r := CitizenRule(p, w, i, d);
            && r.grid == w.grid && r.edges == w.edges && r.pending == w.pending
            && |r.agents| == |w.agents|
            && r.agents[i].Citizen?
            && r.agents[i].jailSentence == w.agents[i].jailSentence - 1
            && r.agents[i].condition == w.agents[i].condition
            && r.agents[i].pos == w.agents[i].pos
            && (forall j :: 0 <= j < |w.agents| && j != i ==> r.agents[j] == w.agents[j])
  {
  }

  /** A jailed citizen's step keeps the world valid. */
  lemma JailedKeepsValid(p: Params, w: World, i: nat, d: AgentDraw)
    requires ParamsOk(p) && WorldValid(p, w) && i < |w.agents| && w.agents[i].Citizen?
    requires w.agents[i].jailSentence > 0
    ensures WorldValid(p, CitizenRule(p, w, i, d))
  {
    var a := w.agents[i];
    UpdateKeepsValid(p, w, i, a.(jailSentence := a.jailSentence - 1), w.pending);
  }

  /** What a free citizen's decision makes of its record: the new estimate and condition, the same traits, place and sentence. */
  lemma DecidedRecord(p: Params, w: World, i: nat)
    requires ParamsOk(p) && i < |w.agents| && w.agents[i].Citizen?
    ensures var a := w.agents[i];
            var b := Decided(p, w, i);
            var ap := Estimate(p, w, i, Occupants(w.grid, SeenCells(p, a))).0;
            && b.Citizen? && SameTraits(a, b)
            && b.pos == a.pos && b.jailSentence == a.jailSentence
            && b.condition == NextCondition(a, ap)
            && b.arrestProbability == Some(ap)
  {
  }

  /** What a free citizen's decision changes: its own record and, maybe, the pending set. */
  lemma DecisionFrame(p: Params, w: World, i: nat)
    requires ParamsOk(p) && i < |w.agents| && w.agents[i].Citizen?
    ensures var r := CitizenDecision(p, w, i);
            && |r.agents| == |w.agents| && r.edges == w.edges && r.grid == w.grid
            && r.agents[i] == Decided(p, w, i)
            && (forall j :: 0 <= j < |w.agents| && j != i ==> r.agents[j] == w.agents[j])
            && r.pending == w.pending + (if p.withNetwork && w.agents[i].condition == Active then LiveIncident(w.edges, i) else {})
  {
  }

  /** A free citizen's decision keeps the world valid. */
  lemma DecisionKeepsValid(p: Params, w: World, i: nat)
    requires ParamsOk(p) && WorldValid(p, w) && i < |w.agents| && w.agents[i].Citizen?
    ensures WorldValid(p, CitizenDecision(p, w, i))
  {
    assert AgentOk(p, w.agents[i]);
    DecidedOk(p, w, i);
    MarkedInNetwork(p, w, i);
    UpdateKeepsValid(p, w, i, Decided(p, w, i), Marked(p, w, i));
  }

  /** The decided record still agrees with the parameters, and stands where the citizen stood. */
  lemma DecidedOk(p: Params, w: World, i: nat)
    requires ParamsOk(p) && i < |w.agents| && w.agents[i].Citizen? && AgentOk(p, w.agents[i])
    ensures var b := Decided(p, w, i);
            AgentOk(p, b) && b.pos == w.agents[i].pos && b.Citizen?
  {
    DecidedRecord(p, w, i);
  }

  /** The marked edges are network edges. */
  lemma MarkedInNetwork(p: Params, w: World, i: nat)
    requires WorldValid(p, w) && i < |w.agents| && w.agents[i].Citizen?
    ensures Marked(p, w, i) <= w.edges.Keys
  {
    assert LiveIncident(w.edges, i) <= LiveEdges(w.edges);
  }

  /** The move at the end of a free citizen's step is to a drawn empty cell it can see. */
  lemma CitizenMove(p: Params, w: World, i: nat, d: AgentDraw)
    requires ParamsOk(p) && WorldValid(p, w) && i < |w.agents| && w.agents[i].Citizen?
    requires w.agents[i].jailSentence == 0
    ensures var mid := CitizenDecision(p, w, i);
            var r := CitizenRule(p, w, i, d);
            && |r.agents| == |w.agents| && r.edges == w.edges && r.pending == mid.pending
            && r.agents[i] == mid.agents[i].(pos := r.agents[i].pos)
            && (forall j :: 0 <= j < |w.agents| && j != i ==> r.agents[j] == mid.agents[j])
            && (r.agents[i].pos != w.agents[i].pos ==>
                  p.movement && r.agents[i].pos in SeenCells(p, w.agents[i]) && r.agents[i].pos !in w.grid)
            && WorldValid(p, r)
  {
    var cells := SeenCells(p, w.agents[i]);
    var target := Pick(p.movement, EmptyCells(w.grid, cells), d.move);
    var mid := CitizenDecision(p, w, i);
    DecisionFrame(p, w, i);
    DecisionKeepsValid(p, w, i);
    MoveToFrame(mid, i, target);
    if target.Some? {
      MoveKeepsValid(p, mid, i, target.value);
    }
  }

  /**
   * `Citizen.step` never turns an Active citizen Quiescent. A free Quiescent citizen turns
   * Active exactly when its grievance minus risk aversion times its newly estimated arrest
   * probability exceeds its threshold, with or without the network.
   */
  lemma CitizenActivation(p: Params, w: World, i: nat, d: AgentDraw)
    requires ParamsOk(p) && WorldValid(p, w) && i < |w.agents| && w.agents[i].Citizen?
    ensures var a := w.agents[i];
            var b := CitizenRule(p, w, i, d).agents[i];
            && b.Citizen?
            && (a.condition == Active ==> b.condition == Active)
            && (a.jailSentence > 0 ==> b.condition == a.condition)
            && (a.jailSentence == 0 && a.condition == Quiescent ==>
                  b.arrestProbability.Some? &&
                  (b.condition == Active <==>
                     a.grievance - a.riskAversion * b.arrestProbability.value > a.threshold))
  {
    if w.agents[i].jailSentence == 0 {
      DecidedRecord(p, w, i);
      DecisionFrame(p, w, i);
      CitizenMove(p, w, i, d);
    }
  }

  /**
   * The censorship marks: only a free citizen that was already Active when activated, in
   * network mode, adds to the pending set, and it adds exactly its live incident edges as
   * canonical pairs; a citizen that turns Active this tick marks nothing.
   */
  lemma CitizenMarks(p: Params, w: World, i: nat, d: AgentDraw)
    requires ParamsOk(p) && WorldValid(p, w) && i < |w.agents| && w.agents[i].Citizen?
    ensures var a := w.agents[i];
            var r := CitizenRule(p, w, i, d);
            && (r.pending != w.pending ==> p.withNetwork && a.jailSentence == 0 && a.condition == Active)
            && (p.withNetwork && a.jailSentence == 0 && a.condition == Active ==>
                  forall e :: e in r.pending <==>
                    e in w.pending || (e in LiveEdges(w.edges) && (e.lo == i || e.hi == i)))
  {
    if w.agents[i].jailSentence == 0 {
      DecisionFrame(p, w, i);
      CitizenMove(p, w, i, d);
      assert Canonical(w.edges.Keys);
      LiveIncidentExact(w.edges, i);
    }
  }

  /**
   * With no cop in vision the floor ratio is 0, so the arrest probability is the curve's
   * value at 0, which is 0 for `1 - exp(-k * 0)`.
   */
  lemma NoCopNoArrestRisk(p: Params, w: World, i: nat, d: AgentDraw)
    requires ParamsOk(p) && WorldValid(p, w) && i < |w.agents| && w.agents[i].Citizen?
    requires w.agents[i].jailSentence == 0 && p.arrestCurve(0) == 0.0
    requires CopsAmong(w.agents, Occupants(w.grid, SeenCells(p, w.agents[i]))) == 0
    ensures CitizenRule(p, w, i, d).agents[i].arrestProbability == Some(0.0)
  {
    DecidedRecord(p, w, i);
    DecisionFrame(p, w, i);
    CitizenMove(p, w, i, d);
  }

  /**
   * The two-hop set of the ego view still holds the citizen itself, so an Active free citizen
   * receives itself as a weak tie (and counts once more among the actives in vision).
   */
  lemma SelfCountedAsWeakTie(p: Params, w: World, i: nat, d: AgentDraw)
    requires ParamsOk(p) && WorldValid(p, w) && i < |w.agents| && p.withNetwork
    requires w.agents[i].Citizen? && w.agents[i].jailSentence == 0 && w.agents[i].condition == Active
    ensures CitizenRule(p, w, i, d).agents[i].weakTiesReceived >= 1
  {
    var live := LiveEdges(w.edges);
    var two := Ball2(live, i) - Neighbours(live, i);
    assert i in two;
    assert i in ActiveTies(w.agents, two);
    CitizenMove(p, w, i, d);
  }

  // ---------------------------------------------------------------------------
  // Cop

  /** The drawn arrestee is a free Active citizen, other than the cop, standing in the cop's view. */
  lemma ArresteeSeen(p: Params, w: World, i: nat, d: AgentDraw)
    requires GridConsistent(w.agents, w.grid) && i < |w.agents| && w.agents[i].Cop?
    ensures Arrestee(p, w, i, d).Some? ==>
              var k := Arrestee(p, w, i, d).value;
              k != i && IsActiveFree(w.agents, k) && w.agents[k].pos in SeenCells(p, w.agents[i])
  {
    var cells := SeenCells(p, w.agents[i]);
    var active := ActiveIds(w.agents, Occupants(w.grid, cells));
    if |active| > 0 {
      var k := active[d.arrestee % |active|];
      assert k in Occupants(w.grid, cells);
      var c :| c in cells && c in w.grid && w.grid[c] == k;
    }
  }

  /**
   * A cop draws an arrestee exactly when some Active, non-jailed citizen stands on a cell it
   * sees: the list it draws from is never empty when such a citizen is in view.
   */
  lemma ArresteeExists(p: Params, w: World, i: nat, d: AgentDraw)
    requires GridConsistent(w.agents, w.grid) && i < |w.agents| && w.agents[i].Cop?
    ensures Arrestee(p, w, i, d).Some? <==>
              exists k :: 0 <= k < |w.agents| && IsActiveFree(w.agents, k) && w.agents[k].pos in SeenCells(p, w.agents[i])
  {
    var cells := SeenCells(p, w.agents[i]);
    var active := ActiveIds(w.agents, Occupants(w.grid, cells));
    if k :| 0 <= k < |w.agents| && IsActiveFree(w.agents, k) && w.agents[k].pos in cells {
      assert w.grid[w.agents[k].pos] == k;
      assert k in active;
    } else {
      ArresteeSeen(p, w, i, d);
    }
  }

  /** The arrest changes no one but the arrestee, and nothing but its sentence and condition. */
  lemma ArrestFrame(p: Params, w: World, i: nat, d: AgentDraw)
    requires GridConsistent(w.agents, w.grid) && i < |w.agents| && w.agents[i].Cop?
    ensures var r := CopArrest(p, w, i, d);
            && |r.agents| == |w.agents| && r.grid == w.grid && r.edges == w.edges && r.pending == w.pending
            && (Arrestee(p, w, i, d).None? ==> r == w)
            && (Arrestee(p, w, i, d).Some? ==>
                  var k := Arrestee(p, w, i, d).value;
                  && k != i && IsActiveFree(w.agents, k)
                  && w.agents[k].pos in SeenCells(p, w.agents[i])
                  && r.agents == w.agents[k := w.agents[k].(jailSentence := Sentence(p, d), condition := Quiescent)])
  {
    ArresteeSeen(p, w, i, d);
  }

  /** Jailing a citizen for at most `max_jail_term` ticks keeps the world valid. */
  lemma JailKeepsValid(p: Params, w: World, k: nat, sentence: nat)
    requires WorldValid(p, w) && sentence <= p.maxJailTerm
    ensures WorldValid(p, Arrest(w, k, sentence))
  {
    if k < |w.agents| && w.agents[k].Citizen? {
      var b := w.agents[k].(jailSentence := sentence, condition := Quiescent);
      assert AgentOk(p, w.agents[k]);
      UpdateKeepsValid(p, w, k, b, w.pending);
    }
  }

  /** The arrest keeps the world valid. */
  lemma ArrestKeepsValid(p: Params, w: World, i: nat, d: AgentDraw)
    requires WorldValid(p, w) && i < |w.agents|
    ensures WorldValid(p, CopArrest(p, w, i, d))
  {
    match Arrestee(p, w, i, d)
    case None =>
    case Some(k) => JailKeepsValid(p, w, k, Sentence(p, d));
  }

  /**
   * `Cop.step` arrests exactly one citizen when a free Active one stands in its view, and
   * none otherwise. With no free Active neighbour no citizen changes; otherwise exactly the
   * drawn one, a free Active citizen standing in the cop's neighbourhood, gets a sentence in
   * `[0, max_jail_term]` and turns Quiescent. The cop moves only when movement is on, to an
   * empty cell it saw, and nothing else changes.
   */
  lemma CopArrestsAtMostOne(p: Params, w: World, i: nat, d: AgentDraw)
    requires WorldValid(p, w) && i < |w.agents| && w.agents[i].Cop?
    ensures Arrestee(p, w, i, d).Some? <==>
              exists k :: 0 <= k < |w.agents| && IsActiveFree(w.agents, k) && w.agents[k].pos in SeenCells(p, w.agents[i])
    ensures var r := CopRule(p, w, i, d);
            && |r.agents| == |w.agents| && r.edges == w.edges && r.pending == w.pending
            && r.agents[i] == Cop(r.agents[i].pos, w.agents[i].vision)
            && (r.agents[i].pos != w.agents[i].pos ==>
                  p.movement && r.agents[i].pos in SeenCells(p, w.agents[i]) && r.agents[i].pos !in w.grid)
            && match Arrestee(p, w, i, d)
               case None => forall j :: 0 <= j < |w.agents| && j != i ==> r.agents[j] == w.agents[j]
               case Some(k) => (
                 && k != i && IsActiveFree(w.agents, k)
                 && w.agents[k].pos in SeenCells(p, w.agents[i])
                 && Sentence(p, d) <= p.maxJailTerm
                 && r.agents[k] == w.agents[k].(jailSentence := Sentence(p, d), condition := Quiescent)
                 && (forall j :: 0 <= j < |w.agents| && j != i && j != k ==> r.agents[j] == w.agents[j]))
  {
    var target := Pick(p.movement, EmptyCells(w.grid, SeenCells(p, w.agents[i])), d.move);
    ArresteeExists(p, w, i, d);
    ArrestFrame(p, w, i, d);
    MoveToFrame(CopArrest(p, w, i, d), i, target);
  }

  /** A cop's step keeps the world valid. */
  lemma CopKeepsValid(p: Params, w: World, i: nat, d: AgentDraw)
    requires WorldValid(p, w) && i < |w.agents| && w.agents[i].Cop?
    ensures WorldValid(p, CopRule(p, w, i, d))
  {
    var target := Pick(p.movement, EmptyCells(w.grid, SeenCells(p, w.agents[i])), d.move);
    ArrestFrame(p, w, i, d);
    ArrestKeepsValid(p, w, i, d);
    var mid := CopArrest(p, w, i, d);
    if target.Some? {
      MoveKeepsValid(p, mid, i, target.value);
    }
  }

  // ---------------------------------------------------------------------------
  // Activations and the schedule

  /**
   * What one activation of agent `i` keeps: the world valid, the network's countdowns, the
   * pending links so far, every agent's kind and fixed attributes (so a citizen's grievance
   * never changes), and the place of everyone but `i`.
   */
  ghost predicate ActivationKeeps(p: Params, w: World, r: World, i: nat)
  {
    && WorldValid(p, r) && r.edges == w.edges && w.pending <= r.pending
    && |r.agents| == |w.agents|
    && (forall j :: 0 <= j < |w.agents| ==> SameTraits(w.agents[j], r.agents[j]))
    && (forall j :: 0 <= j < |w.agents| && j != i ==> r.agents[j].pos == w.agents[j].pos)
  }

  /** A jailed citizen's activation keeps what an activation keeps. */
  lemma JailedActivationKeeps(p: Params, w: World, i: nat, d: AgentDraw)
    requires ParamsOk(p) && WorldValid(p, w) && i < |w.agents| && w.agents[i].Citizen?
    requires w.agents[i].jailSentence > 0
    ensures ActivationKeeps(p, w, CitizenRule(p, w, i, d), i)
  {
    JailedCitizenServes(p, w, i, d);
    JailedKeepsValid(p, w, i, d);
  }

  /** A free citizen's activation keeps what an activation keeps. */
  lemma FreeActivationKeeps(p: Params, w: World, i: nat, d: AgentDraw)
    requires ParamsOk(p) && WorldValid(p, w) && i < |w.agents| && w.agents[i].Citizen?
    requires w.agents[i].jailSentence == 0
    ensures ActivationKeeps(p, w, CitizenRule(p, w, i, d), i)
  {
    DecidedRecord(p, w, i);
    DecisionFrame(p, w, i);
    CitizenMove(p, w, i, d);
  }

  /** A cop's activation keeps what an activation keeps. */
  lemma CopActivationKeeps(p: Params, w: World, i: nat, d: AgentDraw)
    requires ParamsOk(p) && WorldValid(p, w) && i < |w.agents| && w.agents[i].Cop?
    ensures ActivationKeeps(p, w, CopRule(p, w, i, d), i)
  {
    var target := Pick(p.movement, EmptyCells(w.grid, SeenCells(p, w.agents[i])), d.move);
    var mid := CopArrest(p, w, i, d);
    ArrestKeepsTraits(p, w, i, d);
    CopKeepsValid(p, w, i, d);
    MoveToFrame(mid, i, target);
  }

  /** The arrest changes no agent's kind, fixed attributes or place, and leaves the network alone. */
  lemma ArrestKeepsTraits(p: Params, w: World, i: nat, d: AgentDraw)
    requires i < |w.agents|
    ensures var mid := CopArrest(p, w, i, d);
            && |mid.agents| == |w.agents| && mid.edges == w.edges && mid.pending == w.pending
            && (forall j :: 0 <= j < |w.agents| ==> SameTraits(w.agents[j], mid.agents[j]))
            && (forall j :: 0 <= j < |w.agents| ==> mid.agents[j].pos == w.agents[j].pos)
  {
  }

  /** Every activation, of whichever agent, keeps what an activation keeps. */
  lemma ActivatePreserves(p: Params, w: World, i: nat, d: AgentDraw)
    requires ParamsOk(p) && WorldValid(p, w)
    ensures ActivationKeeps(p, w, Activate(p, w, i, d), i)
  {
    if i < |w.agents| {
      if w.agents[i].Citizen? {
        if w.agents[i].jailSentence > 0 {
          JailedActivationKeeps(p, w, i, d);
        } else {
          FreeActivationKeeps(p, w, i, d);
        }
      } else {
        CopActivationKeeps(p, w, i, d);
      }
    }
  }

  /**
   * A whole schedule of activations keeps the world valid, leaves the countdowns alone,
   * only adds to the pending set and keeps every agent's kind and fixed attributes.
   */
  lemma {:induction false} ActivatedPreserves(p: Params, w: World, order: seq<nat>, draws: seq<AgentDraw>)
    requires ParamsOk(p) && WorldValid(p, w) && |order| == |draws|
    ensures var r := Activated(p, w, order, draws);
            && WorldValid(p, r) && r.edges == w.edges && w.pending <= r.pending
            && |r.agents| == |w.agents|
            && (forall j :: 0 <= j < |w.agents| ==> SameTraits(w.agents[j], r.agents[j]))
  {
    if order != [] {
      var n := |order| - 1;
      var mid := Activated(p, w, order[..n], draws[..n]);
      ActivatedPreserves(p, w, order[..n], draws[..n]);
      ActivatePreserves(p, mid, order[n], draws[n]);
      var r := Activate(p, mid, order[n], draws[n]);
      forall j | 0 <= j < |w.agents| ensures SameTraits(w.agents[j], r.agents[j]) {
        assert SameTraits(w.agents[j], mid.agents[j]) && SameTraits(mid.agents[j], r.agents[j]);
      }
    }
  }
}
