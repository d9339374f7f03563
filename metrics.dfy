/**
 * The aggregate counts and averages the model reports after every step, as functions on
 * the agent arena, and what they promise together: the counts partition the citizens, the
 * average jail term lies within the sentence range, and an average of received ties never
 * divides by zero.
 */
module Metrics {

  import opened Agents

  /**
   * `count_type_citizens(model, condition, exclude_jailed)`: citizens in `condition`, leaving
   * out the jailed ones when `excludeJailed` holds.
   */
  function ConditionTotal(agents: seq<Agent>, condition: Condition, excludeJailed: bool): (n: nat)
    ensures n <= |agents|
  {
    if agents == [] then 0
    else
      var a := agents[|agents| - 1];
      ConditionTotal(agents[..|agents| - 1], condition, excludeJailed)
        + (if a.Citizen? && !(excludeJailed && a.jailSentence > 0) && a.condition == condition then 1 else 0)
  }

  /** `count_jailed`: citizens with a positive jail sentence. */
  function JailedTotal(agents: seq<Agent>): (n: nat)
    ensures n <= |agents|
  {
    if agents == [] then 0
    else
      var a := agents[|agents| - 1];
      JailedTotal(agents[..|agents| - 1]) + (if a.Citizen? && a.jailSentence > 0 then 1 else 0)
  }

  /** `count_citizens`. */
  function CitizenTotal(agents: seq<Agent>): (n: nat)
    ensures n <= |agents|
  {
    if agents == [] then 0
    else CitizenTotal(agents[..|agents| - 1]) + (if agents[|agents| - 1].Citizen? then 1 else 0)
  }

  /** `count_cops`. */
  function CopTotal(agents: seq<Agent>): (n: nat)
    ensures n <= |agents|
  {
    if agents == [] then 0
    else CopTotal(agents[..|agents| - 1]) + (if agents[|agents| - 1].Cop? then 1 else 0)
  }

  /** The sum of the positive jail sentences (the `total` of `get_average_jail_term`). */
  function JailSum(agents: seq<Agent>): nat
  {
    if agents == [] then 0
    else
      var a := agents[|agents| - 1];
      JailSum(agents[..|agents| - 1]) + (if a.Citizen? && a.jailSentence > 0 then a.jailSentence else 0)
  }

  /** Citizens not in jail (the `count` of the receival averages). */
  function FreeTotal(agents: seq<Agent>): (n: nat)
    ensures n <= |agents|
  {
    if agents == [] then 0
    else
      var a := agents[|agents| - 1];
      FreeTotal(agents[..|agents| - 1]) + (if a.Citizen? && a.jailSentence == 0 then 1 else 0)
  }

  /** The strong ties received by the citizens not in jail. */
  function StrongSum(agents: seq<Agent>): nat
  {
    if agents == [] then 0
    else
      var a := agents[|agents| - 1];
      StrongSum(agents[..|agents| - 1]) + (if a.Citizen? && a.jailSentence == 0 then a.strongTiesReceived else 0)
  }

  /** The weak ties received by the citizens not in jail. */
  function WeakSum(agents: seq<Agent>): nat
  {
    if agents == [] then 0
    else
      var a := agents[|agents| - 1];
      WeakSum(agents[..|agents| - 1]) + (if a.Citizen? && a.jailSentence == 0 then a.weakTiesReceived else 0)
  }

  /** `get_average_jail_term`: 0 when the stored jail count is 0, else the mean positive sentence. */
  function AverageJailTerm(agents: seq<Agent>, jailCount: nat): real
  {
    if jailCount == 0 then 0.0 else JailSum(agents) as real / jailCount as real
  }

  /**
   * `get_average_strong_ties_receival` and `get_average_weak_ties_receival`: 0 when no tie
   * was received, else the mean over the citizens not in jail.
   */
  function AverageReceival(total: nat, count: nat): real
    requires total > 0 ==> count > 0
  {
    if total == 0 then 0.0 else total as real / count as real
  }

  // ---------------------------------------------------------------------------
  // What the counts promise together

  /** Quiescent and Active (jailed excluded) and Jailed partition the citizens. */
  lemma {:induction false} CitizensPartition(agents: seq<Agent>)
    ensures ConditionTotal(agents, Quiescent, true) + ConditionTotal(agents, Active, true) + JailedTotal(agents)
            == CitizenTotal(agents)
  {
    if agents != [] {
      CitizensPartition(agents[..|agents| - 1]);
    }
  }

  /** The citizens not in jail are exactly the Quiescent and the Active ones counted with jailed excluded. */
  lemma {:induction false} FreePartition(agents: seq<Agent>)
    ensures FreeTotal(agents) == ConditionTotal(agents, Quiescent, true) + ConditionTotal(agents, Active, true)
  {
    if agents != [] {
      FreePartition(agents[..|agents| - 1]);
    }
  }

  /** Every agent is a citizen or a cop. */
  lemma {:induction false} AgentsPartition(agents: seq<Agent>)
    ensures CitizenTotal(agents) + CopTotal(agents) == |agents|
  {
    if agents != [] {
      AgentsPartition(agents[..|agents| - 1]);
    }
  }

  /** Agents of the same kinds, position by position, make the same citizen and cop totals. */
  lemma {:induction false} TotalsKeepKinds(a: seq<Agent>, b: seq<Agent>)
    requires |a| == |b| && forall j :: 0 <= j < |a| ==> SameTraits(a[j], b[j])
    ensures CitizenTotal(b) == CitizenTotal(a) && CopTotal(b) == CopTotal(a)
  {
    if a != [] {
      var n := |a| - 1;
      assert SameTraits(a[n], b[n]);
      TotalsKeepKinds(a[..n], b[..n]);
    }
  }

  /** Every jailed citizen serves between 1 and `max_jail_term` ticks. */
  lemma {:induction false} JailSumBounds(agents: seq<Agent>, maxJailTerm: nat)
    requires forall j :: 0 <= j < |agents| ==> agents[j].Citizen? ==> agents[j].jailSentence <= maxJailTerm
    ensures JailedTotal(agents) <= JailSum(agents) <= maxJailTerm * JailedTotal(agents)
  {
    if agents != [] {
      var n := |agents| - 1;
      var k := JailedTotal(agents[..n]);
      JailSumBounds(agents[..n], maxJailTerm);
      assert maxJailTerm * (k + 1) == maxJailTerm * k + maxJailTerm;
    }
  }

  /**
   * With the jail count freshly taken, the average jail term is 0 when no one is jailed and
   * otherwise lies between 1 and `max_jail_term`.
   */
  lemma AverageJailTermBounds(p: Params, w: World)
    requires WorldValid(p, w)
    ensures var avg := AverageJailTerm(w.agents, JailedTotal(w.agents));
            && (JailedTotal(w.agents) == 0 <==> avg == 0.0)
            && (JailedTotal(w.agents) > 0 ==> 1.0 <= avg <= p.maxJailTerm as real)
  {
    assert forall j :: 0 <= j < |w.agents| ==> AgentOk(p, w.agents[j]);
    JailSumBounds(w.agents, p.maxJailTerm);
    var n := JailedTotal(w.agents);
    if n > 0 {
      MeanBounds(JailSum(w.agents), n, p.maxJailTerm);
    }
  }

  /** A natural total between `n` and `hi * n`, over `n > 0`, has a mean between 1 and `hi`. */
  lemma MeanBounds(total: nat, n: nat, hi: nat)
    requires 0 < n <= total <= hi * n
    ensures 1.0 <= total as real / n as real <= hi as real
  {
    var t := total as real;
    var m := n as real;
    var q := t / m;
    assert q * m == t;
    assert (hi * n) as real == hi as real * m;
    assert (q - 1.0) * m == t - m;
    NonNegativeFactor(q - 1.0, m);
    assert (hi as real - q) * m == hi as real * m - t;
    NonNegativeFactor(hi as real - q, m);
  }

  /** A product with a positive factor is non-negative only if the other factor is. */
  lemma NonNegativeFactor(x: real, m: real)
    requires m > 0.0 && x * m >= 0.0
    ensures x >= 0.0
  {
  }

  /** A strong tie received means some citizen is not in jail, so the average is defined. */
  lemma {:induction false} StrongNeedsFree(agents: seq<Agent>)
    ensures StrongSum(agents) > 0 ==> FreeTotal(agents) > 0
  {
    if agents != [] {
      StrongNeedsFree(agents[..|agents| - 1]);
    }
  }

  /** A weak tie received means some citizen is not in jail, so the average is defined. */
  lemma {:induction false} WeakNeedsFree(agents: seq<Agent>)
    ensures WeakSum(agents) > 0 ==> FreeTotal(agents) > 0
  {
    if agents != [] {
      WeakNeedsFree(agents[..|agents| - 1]);
    }
  }
}
