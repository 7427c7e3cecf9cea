/** The autoscaler's decisions in terms of the observation alone: how many workers are asked for, how far one decision goes,
    where a pool settles, and what is reported as held back. */
module AutoscaleDemand {
  import opened Outcomes
  import opened Numbers
  import opened Autoscale

  /** A worker for every leased and every queued assignment, and the warm headroom, but at least the minimum. */
  function Demand(policy: Policy, o: Observation): nat {
    Max(o.leased + o.queued + policy.warmHeadroom, policy.minimumWorkers)
  }

  function Ceiling(policy: Policy, o: Observation): nat {
    Min(policy.maximumWorkers, o.quota)
  }

  /** Where the pool is to go. */
  function Goal(policy: Policy, o: Observation): nat {
    Min(Demand(policy, o), Ceiling(policy, o))
  }

  lemma GoalIsTarget(policy: Policy, o: Observation)
    requires policy.Valid()
    ensures Target(policy, o) == Goal(policy, o)
    ensures Required(policy, o) == Min(Demand(policy, o), U32_MAX) && EffectiveMaximum(policy, o) == Ceiling(policy, o)
  {
  }

  predicate IdleLongEnough(policy: Policy, o: Observation, now: nat) {
    o.idleSince.Some? && (policy.idleBeforeScaleDown == 0 || o.idleSince.value + policy.idleBeforeScaleDown <= now)
  }

  predicate MayCreate(policy: Policy, o: Observation, n: nat) {
    n <= policy.maximumScaleUp && o.current + n <= Goal(policy, o)
  }

  predicate MayDrain(policy: Policy, o: Observation, now: nat, n: nat) {
    && o.queued == 0 && IdleLongEnough(policy, o, now)
    && n <= policy.maximumScaleDown && policy.warmHeadroom + n <= o.clean && Goal(policy, o) + n <= o.current
  }

  /** A decision is refused exactly for an invalid policy or observation. It creates the most workers that it may: within the
      rate, and up to the goal. It drains the most that it may: within the rate, from an idle pool with nothing queued,
      down to the goal and with the headroom kept clean. */
  lemma DecisionIsExact(policy: Policy, o: Observation, now: nat, n: nat)
    ensures var r := Reconcile(policy, o, now);
            && (r.Ok? <==> policy.Valid() && o.Valid())
            && (r.Err? ==> r.error == if policy.Valid() then InvalidObservation else InvalidPolicy)
            && (r.Ok? ==>
                  && (0 < n <= r.value.create <==> n > 0 && MayCreate(policy, o, n))
                  && (0 < n <= r.value.drain <==> n > 0 && MayDrain(policy, o, now, n))
                  && r.value.desired + r.value.drain == o.current + r.value.create)
  {
    if policy.Valid() { GoalIsTarget(policy, o); }
    hide Target, Required, EffectiveMaximum;
  }

  /** A pool below its goal is at it after exactly ceil(gap / rate) reconciliations: a worker for everything leased and
      queued, the headroom, and at least the minimum, as far as the maximum and the quota allow. */
  lemma SettlesAtDemand(policy: Policy, o: Observation, times: seq<nat>)
    requires policy.Valid() && Steady(o) && o.current <= Goal(policy, o)
    ensures var goal := Min(Max(o.leased + o.queued + policy.warmHeadroom, policy.minimumWorkers), Min(policy.maximumWorkers, o.quota));
            Iterate(policy, o, times).current == goal <==> |times| >= CeilingDiv(goal - o.current, policy.maximumScaleUp)
  {
    GoalIsTarget(policy, o);
    hide Iterate, CeilingDiv, Target, Required, EffectiveMaximum;
    ClimbTime(policy, o, times);
  }

  /** A pool above its goal that is idle with nothing queued settles at it, or above it as far as that takes to keep the
      headroom beside the leased workers. */
  lemma SettlesWhenIdle(policy: Policy, o: Observation, times: seq<nat>)
    requires policy.Valid() && Steady(o) && Goal(policy, o) <= o.current && o.queued == 0
    requires forall t | t in times :: IdleLongEnough(policy, o, t)
    requires |times| >= o.current
    ensures Iterate(policy, o, times).current == Max(Goal(policy, o), Min(o.current, o.leased + policy.warmHeadroom))
  {
    GoalIsTarget(policy, o);
    FloorBelow(policy, o);
    assert forall t | t in times :: IdleElapsed(policy, o, t);
    Falls(policy, o, times);
    TimesGrows(1, policy.maximumScaleDown, |times|);
  }

  /** What is reported as held back is the demand above the maximum and the quota, as long as the demand can be counted. */
  lemma HeldBackIs(policy: Policy, o: Observation, now: nat)
    requires Reconcile(policy, o, now).Ok?
    ensures var held := Reconcile(policy, o, now).value.backpressured;
            var excess := SaturatingSub(Demand(policy, o), Ceiling(policy, o));
            && (held == excess <==> Demand(policy, o) <= U32_MAX)
            && (held == 0 <==> excess == 0)
  {
    GoalIsTarget(policy, o);
    hide Target;
  }

  /** For one: with 2^32 - 1 workers leased, whatever is queued goes uncounted. */
  lemma HeldBackIsCapped(queued: U32, now: nat)
    requires queued > 0
    ensures var policy, o := Policy(0, 10, 0, 1, 1, 0), Observation(U32_MAX, 0, U32_MAX, 0, queued, 10, None);
            && Reconcile(policy, o, now).Ok?
            && Reconcile(policy, o, now).value.backpressured == U32_MAX - 10 < Demand(policy, o) - Ceiling(policy, o)
  {
  }

  lemma ValidIsDecided(policy: Policy, o: Observation, now: nat)
    requires policy.Valid() && o.Valid()
    ensures Reconcile(policy, o, now).Ok?
  {
  }

  /** Nothing is held back if and only if the pool settles with a clean worker for every queued assignment, with the headroom
      beside them, and with no less than its minimum. */
  lemma NothingHeldBackIff(policy: Policy, o: Observation, now: nat, times: seq<nat>)
    requires policy.Valid() && Steady(o) && o.current <= Goal(policy, o)
    requires |times| >= CeilingDiv(Goal(policy, o) - o.current, policy.maximumScaleUp)
    ensures var p := Iterate(policy, o, times);
            Reconcile(policy, o, now).value.backpressured == 0 <==>
            p.clean >= o.queued + policy.warmHeadroom && p.current >= policy.minimumWorkers
  {
    hide Reconcile, Iterate, Target, CeilingDiv;
    ValidIsDecided(policy, o, now);
    HeldBackIs(policy, o, now);
    SettlesAtDemand(policy, o, times);
    LoopKeepsDemand(policy, o, times);
  }

  /** So assignments are reported as held back without a single one queued, whenever the quota is below the minimum. */
  lemma HeldBackWithoutQueue(policy: Policy, o: Observation, now: nat)
    requires policy.Valid() && o.Valid() && o.queued == 0 && o.quota < policy.minimumWorkers
    ensures Reconcile(policy, o, now).value.backpressured > 0
  {
    HeldBackIs(policy, o, now);
  }
}
