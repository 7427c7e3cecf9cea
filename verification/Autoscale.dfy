/** The pool autoscaler: one decision, and what repeating it does to a pool. */
module Autoscale {
  import opened Outcomes
  import opened Numbers

  datatype Policy = Policy(
    minimumWorkers: U32, maximumWorkers: U32, warmHeadroom: U32, maximumScaleUp: U32, maximumScaleDown: U32,
    idleBeforeScaleDown: nat)
  {
    predicate Valid() {
      && 0 < maximumWorkers <= 100_000
      && minimumWorkers <= maximumWorkers
      && warmHeadroom <= maximumWorkers
      && 0 < maximumScaleUp
      && 0 < maximumScaleDown
      && idleBeforeScaleDown <= 30 * 24 * 60 * 60 * 1_000
    }
  }

  datatype Observation = Observation(
    current: U32, clean: U32, leased: U32, draining: U32, queued: U32, quota: U32, idleSince: Option<nat>)
  {
    predicate Valid() {
      clean + leased <= U32_MAX && clean + leased <= current
    }
  }

  datatype Decision = Decision(desired: U32, create: U32, drain: U32, backpressured: U32)

  datatype Error = InvalidPolicy | InvalidObservation

  function SaturatingAdd(a: U32, b: U32): U32 {
    Min(a + b, U32_MAX)
  }

  function SaturatingSub(a: nat, b: nat): nat {
    if a < b then 0 else a - b
  }

  function EffectiveMaximum(policy: Policy, o: Observation): U32 {
    Min(policy.maximumWorkers, o.quota)
  }

  function Required(policy: Policy, o: Observation): U32 {
    Max(SaturatingAdd(SaturatingAdd(o.leased, o.queued), policy.warmHeadroom), policy.minimumWorkers)
  }

  function Target(policy: Policy, o: Observation): U32 {
    Min(Required(policy, o), EffectiveMaximum(policy, o))
  }

  predicate IdleElapsed(policy: Policy, o: Observation, now: nat) {
    o.idleSince.Some? && SaturatingSub(now, o.idleSince.value) >= policy.idleBeforeScaleDown
  }

  function Reconcile(policy: Policy, o: Observation, now: nat): Result<Decision, Error> {
    if !policy.Valid() then Err(InvalidPolicy)
    else if !o.Valid() then Err(InvalidObservation)
    else
      var target := Target(policy, o);
      var backpressured := SaturatingSub(Required(policy, o), EffectiveMaximum(policy, o));
      if target > o.current then
        var create := Min(SaturatingSub(target, o.current), policy.maximumScaleUp);
        Ok(Decision(SaturatingAdd(o.current, create), create, 0, backpressured))
      else if target < o.current && o.queued == 0 && IdleElapsed(policy, o, now) then
        var removable := Min(Min(SaturatingSub(o.clean, policy.warmHeadroom), SaturatingSub(o.current, target)),
                             policy.maximumScaleDown);
        Ok(Decision(SaturatingSub(o.current, removable), 0, removable, backpressured))
      else Ok(Decision(o.current, 0, 0, backpressured))
  }

  // ---------- The closed loop ----------

  /** Every worker is clean or leased, as when workers that were started come up clean and drained ones go away. */
  predicate Steady(o: Observation) {
    o.current == o.clean + o.leased
  }

  /** The pool after its decision is carried out; demand, quota and leases stay as they are. */
  function Apply(policy: Policy, o: Observation, now: nat): Observation
    requires policy.Valid() && Steady(o)
    ensures Steady(Apply(policy, o, now))
  {
    var desired := Reconcile(policy, o, now).value.desired;
    o.(current := desired, clean := desired - o.leased)
  }

  /** The pool after one reconciliation at each of the given times. */
  function Iterate(policy: Policy, o: Observation, times: seq<nat>): Observation
    requires policy.Valid() && Steady(o)
    ensures Steady(Iterate(policy, o, times))
    decreases |times|
  {
    if times == [] then o
    else Apply(policy, Iterate(policy, o, times[..|times| - 1]), times[|times| - 1])
  }

  /** Where a pool with nothing queued settles: no lower than the target, and with the warm headroom left clean
      unless it was short of it to begin with. */
  function Floor(policy: Policy, o: Observation): U32
    requires policy.Valid()
  {
    Max(Target(policy, o), Min(o.current, Min(o.leased + policy.warmHeadroom, U32_MAX)))
  }

  lemma {:induction false} LoopKeepsDemand(policy: Policy, o: Observation, times: seq<nat>)
    requires policy.Valid() && Steady(o)
    ensures var p := Iterate(policy, o, times); p == o.(current := p.current, clean := p.clean)
    ensures Target(policy, Iterate(policy, o, times)) == Target(policy, o)
    decreases |times|
  {
    if times != [] { LoopKeepsDemand(policy, o, times[..|times| - 1]); }
  }

  /** Below its target a pool climbs by the scale-up rate until it reaches the target, and stays. */
  lemma {:induction false} Climbs(policy: Policy, o: Observation, times: seq<nat>)
    requires policy.Valid() && Steady(o) && o.current <= Target(policy, o)
    ensures Iterate(policy, o, times).current == Min(Target(policy, o), o.current + |times| * policy.maximumScaleUp)
    decreases |times|
  {
    if times != [] {
      var shorter := times[..|times| - 1];
      Climbs(policy, o, shorter);
      LoopKeepsDemand(policy, o, shorter);
      OneMore(|shorter|, policy.maximumScaleUp);
    }
  }

  lemma OneMore(n: nat, rate: nat)
    ensures (n + 1) * rate == n * rate + rate
  {
  }

  lemma FallStep(policy: Policy, o: Observation, now: nat)
    requires policy.Valid() && Steady(o) && Target(policy, o) <= o.current && o.queued == 0 && IdleElapsed(policy, o, now)
    ensures Apply(policy, o, now).current == Max(Floor(policy, o), SaturatingSub(o.current, policy.maximumScaleDown))
    ensures Apply(policy, o, now).clean >= Min(o.clean, policy.warmHeadroom)
  {
    hide Target;
  }

  lemma FloorBelow(policy: Policy, o: Observation)
    requires policy.Valid() && Target(policy, o) <= o.current
    ensures Target(policy, o) <= Floor(policy, o) <= o.current
  {
  }

  /** The floor does not move while the pool falls towards it. */
  lemma FloorStays(policy: Policy, o: Observation, p: Observation)
    requires policy.Valid() && p == o.(current := p.current, clean := p.clean)
    requires Floor(policy, o) <= p.current <= o.current
    ensures Floor(policy, p) == Floor(policy, o)
  {
  }

  /** Idle and with nothing queued, a pool falls by the scale-down rate until it reaches the floor, and stays. */
  lemma {:induction false} Falls(policy: Policy, o: Observation, times: seq<nat>)
    requires policy.Valid() && Steady(o) && Target(policy, o) <= o.current && o.queued == 0
    requires forall t | t in times :: IdleElapsed(policy, o, t)
    ensures Iterate(policy, o, times).current == Max(Floor(policy, o), SaturatingSub(o.current, |times| * policy.maximumScaleDown))
    ensures Iterate(policy, o, times).clean >= Min(o.clean, policy.warmHeadroom)
    decreases |times|
  {
    hide Apply, Floor, Target;
    FloorBelow(policy, o);
    if times != [] {
      var shorter := times[..|times| - 1];
      Falls(policy, o, shorter);
      LoopKeepsDemand(policy, o, shorter);
      OneMore(|shorter|, policy.maximumScaleDown);
      var p, now := Iterate(policy, o, shorter), times[|times| - 1];
      assert now in times;
      FloorStays(policy, o, p);
      FallStep(policy, p, now);
    }
  }

  /** Otherwise a pool at or above its target stays as it is. */
  lemma {:induction false} Holds(policy: Policy, o: Observation, times: seq<nat>)
    requires policy.Valid() && Steady(o) && Target(policy, o) <= o.current
    requires forall t | t in times :: o.queued > 0 || !IdleElapsed(policy, o, t)
    ensures Iterate(policy, o, times).current == o.current
    decreases |times|
  {
    if times != [] {
      var shorter := times[..|times| - 1];
      Holds(policy, o, shorter);
      LoopKeepsDemand(policy, o, shorter);
      assert times[|times| - 1] in times;
    }
  }

  /** Whatever the times, a pool never reverses direction and never crosses its target. */
  lemma {:induction false} NeverReverses(policy: Policy, o: Observation, times: seq<nat>, n: nat)
    requires policy.Valid() && Steady(o) && n <= |times|
    ensures var p, q := Iterate(policy, o, times[..n]).current, Iterate(policy, o, times).current;
            var target := Target(policy, o);
            if o.current <= target then p <= q <= target else target <= q <= p
    decreases |times|
  {
    if n == |times| {
      assert times[..n] == times;
      if n > 0 {
        NeverReverses(policy, o, times[..n - 1], n - 1);
        LoopKeepsDemand(policy, o, times[..n - 1]);
      }
    } else {
      var shorter := times[..|times| - 1];
      assert shorter[..n] == times[..n];
      NeverReverses(policy, o, shorter, n);
      LoopKeepsDemand(policy, o, shorter);
    }
  }

  function CeilingDiv(a: nat, b: nat): nat
    requires b > 0
  {
    (a + b - 1) / b
  }

  lemma CeilingDivFacts(a: nat, b: nat)
    requires b > 0
    ensures a <= CeilingDiv(a, b) * b
    ensures a > 0 ==> CeilingDiv(a, b) > 0 && (CeilingDiv(a, b) - 1) * b < a
  {
    var q := CeilingDiv(a, b);
    assert a + b - 1 == q * b + (a + b - 1) % b;
    assert (q - 1) * b == q * b - b;
  }

  /** The target is reached after exactly ceil(gap / rate) reconciliations, and not before. */
  lemma ClimbTime(policy: Policy, o: Observation, times: seq<nat>)
    requires policy.Valid() && Steady(o) && o.current <= Target(policy, o)
    ensures var steps := CeilingDiv(Target(policy, o) - o.current, policy.maximumScaleUp);
            Iterate(policy, o, times).current == Target(policy, o) <==> |times| >= steps
  {
    var gap, rate := Target(policy, o) - o.current, policy.maximumScaleUp;
    Climbs(policy, o, times);
    CeilingDivFacts(gap, rate);
    Rounds(|times|, gap, rate);
  }

  /** The floor is reached after exactly ceil(gap / rate) reconciliations, and not before. */
  lemma FallTime(policy: Policy, o: Observation, times: seq<nat>)
    requires policy.Valid() && Steady(o) && Target(policy, o) <= o.current && o.queued == 0
    requires forall t | t in times :: IdleElapsed(policy, o, t)
    ensures Floor(policy, o) <= o.current
    ensures var steps := CeilingDiv(o.current - Floor(policy, o), policy.maximumScaleDown);
            Iterate(policy, o, times).current == Floor(policy, o) <==> |times| >= steps
  {
    var gap, rate := o.current - Floor(policy, o), policy.maximumScaleDown;
    Falls(policy, o, times);
    CeilingDivFacts(gap, rate);
    Rounds(|times|, gap, rate);
  }

  lemma Rounds(n: nat, gap: nat, rate: nat)
    requires rate > 0
    ensures n * rate >= gap <==> n >= CeilingDiv(gap, rate)
  {
    CeilingDivFacts(gap, rate);
    var q := CeilingDiv(gap, rate);
    if n >= q {
      TimesGrows(q, n, rate);
    } else if gap > 0 {
      TimesGrows(n, q - 1, rate);
    }
  }

  /** Demand that the target leaves out is exactly what is reported as held back. */
  lemma DemandAccountedFor(policy: Policy, o: Observation, now: nat)
    requires Reconcile(policy, o, now).Ok?
    ensures var d := Reconcile(policy, o, now).value;
            && Target(policy, o) + d.backpressured ==
               Min(Max(o.leased + o.queued + policy.warmHeadroom, policy.minimumWorkers), U32_MAX)
            && d.desired + d.drain == o.current + d.create
            && d.drain <= o.clean
            && (d.create > 0 ==> d.desired <= Min(policy.maximumWorkers, o.quota))
            && (d.drain > 0 ==> o.clean - d.drain >= policy.warmHeadroom && d.desired >= Target(policy, o))
  {
  }
}
