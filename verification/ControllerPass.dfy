/** How a pass of the controller shares out the budget: each pool gets what it asks for, as far as its rate, its maximum and
    the free slots allow, and gives back what it need not keep. */
module ControllerPass {
  import opened Numbers
  import opened Autoscale
  import opened AutoscaleDemand
  import opened Controllers

  /** A worker for every leased and every queued assignment, and the warm headroom, but at least the minimum. */
  function Wants(policy: Policy, a: Answers): nat
    requires a.Answers?
  {
    Max(a.leased + a.queued + policy.warmHeadroom, policy.minimumWorkers)
  }

  /** The pool may grow by `n`: within its rate, its demand and its maximum, and into free slots. */
  predicate MayGrow(policy: Policy, current: nat, total: nat, maximumTotal: nat, a: Answers, n: nat)
    requires a.Answers?
  {
    && n <= policy.maximumScaleUp && current + n <= Wants(policy, a)
    && current + n <= policy.maximumWorkers && total + n <= maximumTotal
  }

  /** The pool may shrink by `n`: idle with nothing queued, within its rate, down to its demand or maximum, and with the
      headroom kept clean. */
  predicate MayShrink(policy: Policy, current: nat, a: Answers, n: nat)
    requires a.Answers?
  {
    && a.queued == 0 && a.idleSince.Some?
    && (policy.idleBeforeScaleDown == 0 || a.idleSince.value + policy.idleBeforeScaleDown <= a.now)
    && n <= policy.maximumScaleDown && policy.warmHeadroom + n <= a.clean
    && Min(Wants(policy, a), policy.maximumWorkers) + n <= current
  }

  /** A pool stops the pass if and only if its answers do not come or do not add up, or its policy is invalid. */
  lemma StopsIff(policy: Policy, current: U32, total: nat, maximumTotal: U32, a: Answers)
    ensures PoolAfter(policy, current, total, maximumTotal, a).None? <==>
            a.Unavailable? || !policy.Valid() || a.clean + a.leased > current
  {
  }

  /** A pool grows by the most that it may. */
  lemma GrowsAsAllowed(policy: Policy, current: U32, total: nat, maximumTotal: U32, a: Answers, n: nat)
    requires PoolAfter(policy, current, total, maximumTotal, a).Some? && n > 0
    ensures PoolAfter(policy, current, total, maximumTotal, a).value >= current + n <==>
            MayGrow(policy, current, total, maximumTotal, a, n)
  {
    var o := Observe(current, Quota(policy, current, total, maximumTotal), a);
    DecisionIsExact(policy, o, a.now, n);
    hide Reconcile, Drainable;
    CreateMatches(policy, current, total, maximumTotal, a, n);
  }

  lemma CreateMatches(policy: Policy, current: U32, total: nat, maximumTotal: U32, a: Answers, n: nat)
    requires a.Answers? && policy.Valid() && n > 0
    ensures MayCreate(policy, Observe(current, Quota(policy, current, total, maximumTotal), a), n) <==>
            MayGrow(policy, current, total, maximumTotal, a, n)
  {
  }

  lemma DrainMatches(policy: Policy, current: U32, total: nat, maximumTotal: U32, a: Answers, n: nat)
    requires a.Answers? && policy.Valid() && n > 0
    ensures MayDrain(policy, Observe(current, Quota(policy, current, total, maximumTotal), a), a.now, n) <==>
            MayShrink(policy, current, a, n)
  {
  }

  /** A pool shrinks by the most that it may, if none of that many trailing workers is unknown or busy and the clean ones
      are still clean, and otherwise not at all. */
  lemma ShrinksAsAllowed(policy: Policy, current: U32, total: nat, maximumTotal: U32, a: Answers, n: nat)
    requires PoolAfter(policy, current, total, maximumTotal, a).Some?
    requires (n > 0 ==> MayShrink(policy, current, a, n)) && !MayShrink(policy, current, a, n + 1)
    ensures n <= current
    ensures var after := PoolAfter(policy, current, total, maximumTotal, a).value;
            if n == 0 then after >= current
            else after == if Drainable(current - n, current, a) then current - n else current
  {
    var o := Observe(current, Quota(policy, current, total, maximumTotal), a);
    var d := Reconcile(policy, o, a.now).value;
    DecisionIsExact(policy, o, a.now, n + 1);
    DrainMatches(policy, current, total, maximumTotal, a, n + 1);
    if n > 0 {
      DecisionIsExact(policy, o, a.now, n);
      DrainMatches(policy, current, total, maximumTotal, a, n);
      DecisionIsExact(policy, o, a.now, 1);
    }
    hide Reconcile, Drainable;
    assert d.drain == n;
  }

  /** A pool left with fewer workers than it wants has grown by its full rate, or has its maximum, or there is no free slot
      left. */
  lemma ShortOnlyForCause(policy: Policy, current: U32, total: nat, maximumTotal: U32, a: Answers)
    requires PoolAfter(policy, current, total, maximumTotal, a).Some?
    requires PoolAfter(policy, current, total, maximumTotal, a).value < Wants(policy, a)
    ensures var after := PoolAfter(policy, current, total, maximumTotal, a).value;
            || after == current + policy.maximumScaleUp
            || after >= policy.maximumWorkers
            || total - current + after >= maximumTotal
  {
    var after := PoolAfter(policy, current, total, maximumTotal, a).value;
    hide PoolAfter;
    if after < policy.maximumWorkers {
      GrowsOrKeeps(policy, current, total, maximumTotal, a);
      GrowsAsAllowed(policy, current, total, maximumTotal, a, after - current + 1);
      if after > current { GrowsAsAllowed(policy, current, total, maximumTotal, a, after - current); }
    }
  }

  lemma GrowsOrKeeps(policy: Policy, current: U32, total: nat, maximumTotal: U32, a: Answers)
    requires PoolAfter(policy, current, total, maximumTotal, a).Some?
    requires PoolAfter(policy, current, total, maximumTotal, a).value < Min(Wants(policy, a), policy.maximumWorkers)
    ensures PoolAfter(policy, current, total, maximumTotal, a).value >= current
  {
    var o := Observe(current, Quota(policy, current, total, maximumTotal), a);
    var d := Reconcile(policy, o, a.now).value;
    DecisionIsExact(policy, o, a.now, d.drain);
    if d.drain > 0 { DrainMatches(policy, current, total, maximumTotal, a, d.drain); }
    hide Reconcile, Drainable;
  }

  // ---------- The pass ----------

  lemma {:induction false} PassFixes(
    policies: seq<Policy>, replicas: seq<U32>, maximumTotal: U32, answers: seq<Answers>, i: nat, n: nat)
    requires |policies| == |replicas| == |answers| && i < n <= |replicas|
    requires PassAfter(policies, replicas, maximumTotal, answers, n).1
    ensures PassAfter(policies, replicas, maximumTotal, answers, i + 1).1
    ensures PassAfter(policies, replicas, maximumTotal, answers, n).0[i] == PassAfter(policies, replicas, maximumTotal, answers, i + 1).0[i]
    decreases n
  {
    hide PoolAfter, Sum;
    if i + 1 < n { PassFixes(policies, replicas, maximumTotal, answers, i, n - 1); }
  }

  /** In every pass, a pool that ends it with fewer workers than it wants has grown by its full rate, or has its maximum, or
      left no free slot when its turn was over. */
  lemma PassServes(policies: seq<Policy>, replicas: seq<U32>, maximumTotal: U32, answers: seq<Answers>, n: nat, i: nat)
    requires |policies| == |replicas| == |answers| && i < n <= |replicas|
    requires PassAfter(policies, replicas, maximumTotal, answers, n).1
    ensures answers[i].Answers?
    ensures var after := PassAfter(policies, replicas, maximumTotal, answers, n).0[i];
            after < Wants(policies[i], answers[i]) ==>
              || after == replicas[i] + policies[i].maximumScaleUp
              || after >= policies[i].maximumWorkers
              || Sum(PassAfter(policies, replicas, maximumTotal, answers, i + 1).0) >= maximumTotal
  {
    PassFixes(policies, replicas, maximumTotal, answers, i, n);
    var before := PassAfter(policies, replicas, maximumTotal, answers, i).0;
    StopsIff(policies[i], before[i], Sum(before), maximumTotal, answers[i]);
    hide PoolAfter, Sum;
    var after := PoolAfter(policies[i], before[i], Sum(before), maximumTotal, answers[i]).value;
    SumUpdate(before, i, after);
    if after < Wants(policies[i], answers[i]) {
      ShortOnlyForCause(policies[i], before[i], Sum(before), maximumTotal, answers[i]);
    }
  }
}
