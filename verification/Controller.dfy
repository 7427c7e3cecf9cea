/** One pass of the autoscaler controller over the catalog: every pool is reconciled in turn, and all of them share
    one budget of workers. */
module Controllers {
  import opened Outcomes
  import opened Numbers
  import opened Autoscale

  datatype WorkerState = Clean | Draining | Busy

  /** What the cluster and the placement store answer while one pool is handled: the counts, the state of the worker
      at each ordinal, and whether the clean ones among those to be drained were still clean when it came to it.
      `Unavailable` stands for any call that fails, the scaling itself included; it ends the pass. */
  datatype Answers =
    | Unavailable
    | Answers(clean: U32, leased: U32, draining: U32, queued: U32, idleSince: Option<nat>, now: nat,
              workers: map<nat, WorkerState>, stillClean: bool)

  /** The most workers the pool may have, given the slots the cluster has left. */
  function Quota(policy: Policy, current: U32, total: nat, maximumTotal: U32): U32 {
    Min(SaturatingAdd(current, SaturatingSub(maximumTotal, total)), policy.maximumWorkers)
  }

  function Observe(current: U32, quota: U32, a: Answers): Observation
    requires a.Answers?
  {
    Observation(current, a.clean, a.leased, a.draining, a.queued, quota, a.idleSince)
  }

  /** None of the workers from `low` up to `high` is unknown or busy, and the clean ones could be drained. */
  predicate Drainable(low: nat, high: nat, a: Answers)
    requires a.Answers?
  {
    && (forall o | low <= o < high :: o in a.workers && !a.workers[o].Busy?)
    && (a.stillClean || forall o | low <= o < high :: a.workers[o].Draining?)
  }

  /** The trailing workers go all together, as many as asked for, or none does. */
  function Drained(current: U32, maximum: U32, a: Answers): U32
    requires a.Answers?
  {
    if Drainable(current - Min(maximum, current), current, a) then Min(maximum, current) else 0
  }

  /** The replica count a pool ends up with, or nothing when the pass stops at this pool. */
  function PoolAfter(policy: Policy, current: U32, total: nat, maximumTotal: U32, a: Answers): Option<U32> {
    if a.Unavailable? then None
    else
      var r := Reconcile(policy, Observe(current, Quota(policy, current, total, maximumTotal), a), a.now);
      if r.Err? then None
      else if r.value.create > 0 then Some(SaturatingAdd(current, r.value.create))
      else Some(SaturatingSub(current, Drained(current, r.value.drain, a)))
  }

  function Sum(s: seq<U32>): nat {
    if s == [] then 0 else Sum(s[..|s| - 1]) + s[|s| - 1]
  }

  /** The replica counts after the first `n` pools, or where the pass stopped. */
  function PassAfter(policies: seq<Policy>, replicas: seq<U32>, maximumTotal: U32, answers: seq<Answers>, n: nat)
    : (r: (seq<U32>, bool))
    requires |policies| == |replicas| == |answers| && n <= |replicas|
    ensures |r.0| == |replicas|
    ensures forall i | n <= i < |replicas| :: r.0[i] == replicas[i]
  {
    if n == 0 then (replicas, true)
    else
      var (before, going) := PassAfter(policies, replicas, maximumTotal, answers, n - 1);
      if !going then (before, false)
      else
        var after := PoolAfter(policies[n - 1], before[n - 1], Sum(before), maximumTotal, answers[n - 1]);
        if after.None? then (before, false) else (before[n - 1 := after.value], true)
  }

  lemma {:induction false} SumUpdate(s: seq<U32>, i: nat, v: U32)
    requires i < |s|
    ensures Sum(s[i := v]) == Sum(s) - s[i] + v
  {
    var n := |s| - 1;
    if i == n {
      assert s[i := v][..n] == s[..n];
    } else {
      SumUpdate(s[..n], i, v);
      assert s[i := v][..n] == s[..n][i := v];
    }
  }

  /** One pool grows only into free slots and up to its own maximum, and gives up only trailing workers that are not
      busy, keeping the leased ones and the warm headroom. */
  lemma PoolWithinBudget(policy: Policy, current: U32, total: nat, maximumTotal: U32, a: Answers)
    requires PoolAfter(policy, current, total, maximumTotal, a).Some?
    ensures var after := PoolAfter(policy, current, total, maximumTotal, a).value;
            && (after > current ==> after <= policy.maximumWorkers && total - current + after <= maximumTotal)
            && (after < current ==>
                  && after + policy.maximumScaleDown >= current && after >= a.leased + policy.warmHeadroom
                  && forall o | after <= o < current :: o in a.workers && !a.workers[o].Busy?)
  {
  }

  /** After every pool of a pass, however far it gets, the workers together number no more than the budget, or than
      there were at the start; and a pool that grew is within its maximum. */
  lemma {:induction false} BudgetAfterEveryPool(
    policies: seq<Policy>, replicas: seq<U32>, maximumTotal: U32, answers: seq<Answers>, n: nat)
    requires |policies| == |replicas| == |answers| && n <= |replicas|
    ensures var after := PassAfter(policies, replicas, maximumTotal, answers, n).0;
            && Sum(after) <= Max(Sum(replicas), maximumTotal)
            && forall i | 0 <= i < |replicas| && after[i] > replicas[i] :: after[i] <= policies[i].maximumWorkers
  {
    hide PoolAfter, Sum;
    if n > 0 {
      BudgetAfterEveryPool(policies, replicas, maximumTotal, answers, n - 1);
      var (before, going) := PassAfter(policies, replicas, maximumTotal, answers, n - 1);
      if going {
        var after := PoolAfter(policies[n - 1], before[n - 1], Sum(before), maximumTotal, answers[n - 1]);
        if after.Some? {
          PoolWithinBudget(policies[n - 1], before[n - 1], Sum(before), maximumTotal, answers[n - 1]);
          SumUpdate(before, n - 1, after.value);
        }
      }
    }
  }

  /** The stateful sets of the cluster, one for each pool of the catalog. */
  class Controller {
    const policies: seq<Policy>
    const maximumTotalWorkers: U32
    var replicas: seq<U32>

    constructor (policies: seq<Policy>, maximumTotalWorkers: U32, replicas: seq<U32>)
      requires |policies| == |replicas|
      ensures this.policies == policies && this.maximumTotalWorkers == maximumTotalWorkers && this.replicas == replicas
    {
      this.policies := policies;
      this.maximumTotalWorkers := maximumTotalWorkers;
      this.replicas := replicas;
    }

    /** Adds up the replicas, unless the count would overflow. */
    method TotalReplicas() returns (total: Option<U32>)
      ensures total.Some? <==> Sum(replicas) <= U32_MAX
      ensures total.Some? ==> total.value == Sum(replicas)
    {
      var sum: U32 := 0;
      for i := 0 to |replicas|
        invariant sum == Sum(replicas[..i])
      {
        assert replicas[..i + 1][..i] == replicas[..i];
        if sum + replicas[i] > U32_MAX {
          SumGrows(replicas, i + 1);
          return None;
        }
        sum := sum + replicas[i];
      }
      assert replicas[..|replicas|] == replicas;
      return Some(sum);
    }

    /** Collects the trailing workers, highest ordinal first, and drains them if all of them may go. */
    method DrainTrailing(current: U32, maximum: U32, a: Answers) returns (drained: U32)
      requires a.Answers?
      ensures drained == Drained(current, maximum, a)
    {
      var states: seq<WorkerState> := [];
      for offset := 0 to Min(maximum, current)
        invariant |states| == offset
        invariant forall o | current - offset <= o < current :: o in a.workers && a.workers[o] == states[current - 1 - o]
      {
        var ordinal := current - offset - 1;
        if ordinal !in a.workers {
          return 0;
        }
        states := states + [a.workers[ordinal]];
      }
      forall k | 0 <= k < |states| ensures states[k] == a.workers[current - 1 - k] {
        assert current - 1 - k in a.workers;
      }
      if states == [] || (exists k | 0 <= k < |states| :: states[k].Busy?) {
        return 0;
      }
      if (exists k | 0 <= k < |states| :: states[k].Clean?) && !a.stillClean {
        return 0;
      }
      return |states|;
    }

    lemma DrainBounded(current: U32, maximum: U32, a: Answers)
      requires a.Answers?
      ensures Drained(current, maximum, a) <= current && Drained(current, maximum, a) <= maximum
    {
    }

    /** Scales one pool and keeps the running total in step with the cluster. */
    method ReconcilePool(i: nat, total: U32, a: Answers) returns (ok: bool, newTotal: U32)
      requires i < |replicas| == |policies| && total == Sum(replicas)
      modifies this`replicas
      ensures var after := PoolAfter(policies[i], old(replicas)[i], total, maximumTotalWorkers, a);
              ok == after.Some? && replicas == if ok then old(replicas)[i := after.value] else old(replicas)
      ensures newTotal == Sum(replicas)
    {
      hide Sum, Drained;
      var current := replicas[i];
      assert replicas[i := current] == replicas;
      if a.Unavailable? {
        return false, total;
      }
      var quota := Min(SaturatingAdd(current, SaturatingSub(maximumTotalWorkers, total)), policies[i].maximumWorkers);
      var r := Reconcile(policies[i], Observe(current, quota, a), a.now);
      if r.Err? {
        return false, total;
      }
      PoolWithinBudget(policies[i], current, total, maximumTotalWorkers, a);
      DrainBounded(current, r.value.drain, a);
      ok, newTotal := true, total;
      if r.value.create > 0 {
        var desired := SaturatingAdd(current, r.value.create);
        SumUpdate(replicas, i, desired);
        replicas := replicas[i := desired];
        newTotal := SaturatingAdd(total, r.value.create);
      } else if r.value.drain > 0 {
        var drained := DrainTrailing(current, r.value.drain, a);
        if drained > 0 {
          SumUpdate(replicas, i, SaturatingSub(current, drained));
          replicas := replicas[i := SaturatingSub(current, drained)];
          newTotal := SaturatingSub(total, drained);
        }
      }
    }

    /** One pass over the catalog, until a pool fails. */
    method ReconcileOnce(answers: seq<Answers>) returns (ok: bool)
      requires |policies| == |replicas| == |answers|
      modifies this`replicas
      ensures Sum(old(replicas)) > U32_MAX ==> !ok && replicas == old(replicas)
      ensures Sum(old(replicas)) <= U32_MAX ==>
                (replicas, ok) == PassAfter(policies, old(replicas), maximumTotalWorkers, answers, |answers|)
      ensures Sum(replicas) <= Max(Sum(old(replicas)), maximumTotalWorkers)
    {
      hide PoolAfter, Sum;
      var counted := TotalReplicas();
      if counted.None? {
        return false;
      }
      var total := counted.value;
      ghost var start := replicas;
      BudgetAfterEveryPool(policies, start, maximumTotalWorkers, answers, |answers|);
      for i := 0 to |replicas|
        invariant (replicas, true) == PassAfter(policies, start, maximumTotalWorkers, answers, i)
        invariant total == Sum(replicas)
      {
        BudgetAfterEveryPool(policies, start, maximumTotalWorkers, answers, i + 1);
        ok, total := ReconcilePool(i, total, answers[i]);
        if !ok {
          PassStops(policies, start, maximumTotalWorkers, answers, i + 1, |answers|);
          return false;
        }
      }
      return true;
    }
  }

  lemma {:induction false} SumGrows(s: seq<U32>, n: nat)
    requires n <= |s|
    ensures Sum(s[..n]) <= Sum(s)
    decreases |s| - n
  {
    if n == |s| {
      assert s[..n] == s;
    } else {
      SumGrows(s, n + 1);
      assert s[..n + 1][..n] == s[..n];
    }
  }

  lemma {:induction false} PassStops(
    policies: seq<Policy>, replicas: seq<U32>, maximumTotal: U32, answers: seq<Answers>, m: nat, n: nat)
    requires |policies| == |replicas| == |answers| && m <= n <= |replicas|
    requires !PassAfter(policies, replicas, maximumTotal, answers, m).1
    ensures PassAfter(policies, replicas, maximumTotal, answers, n) == PassAfter(policies, replicas, maximumTotal, answers, m)
  {
    if m < n { PassStops(policies, replicas, maximumTotal, answers, m, n - 1); }
  }
}
