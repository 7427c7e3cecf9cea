/** No tenant starves, and tenants that stay backlogged are served in proportion to their weights. */
module FairQueueFairness {
  import opened Orders
  import opened Outcomes
  import opened FairQueue
  import opened FairQueueRuns

  // ---------- What leaves two scheduled tenants in place ----------

  ghost predicate Scheduled(q: Queue, t: string) {
    t in q.schedule && t in q.tenants
  }

  /** Both tenants keep their deficits and their order, and neither moves back. */
  ghost predicate InPlace(q: Queue, r: Queue, a: string, b: string) {
    && r.limits == q.limits
    && Scheduled(q, a) && Scheduled(q, b) && Scheduled(r, a) && Scheduled(r, b)
    && r.tenants[a].deficit == q.tenants[a].deficit && r.tenants[b].deficit == q.tenants[b].deficit
    && Pos(r.schedule, a) <= Pos(q.schedule, a)
    && (Pos(r.schedule, a) < Pos(r.schedule, b) <==> Pos(q.schedule, a) < Pos(q.schedule, b))
  }

  lemma ShrinkInPlace(q: Queue, x: string, kept: seq<Work>, gone: seq<Work>, a: string, b: string)
    requires Inv(q) && x in q.tenants
    requires a in Shrink(q, x, kept, gone).schedule && b in Shrink(q, x, kept, gone).schedule
    ensures Scheduled(q, a) && Scheduled(q, b)
    ensures InPlace(q, Shrink(q, x, kept, gone), a, b)
  {
    hide Items, CountsOk, Pos, Without;
    WithoutFacts(q.schedule, x);
    assert Waiting(q.tenants, a) && Waiting(q.tenants, b);
    if kept == [] { WithoutPositions(q.schedule, x, a, b); }
  }

  lemma {:induction false} ExpireTenantsInPlace(q: Queue, ids: seq<string>, now: nat, a: string, b: string)
    requires Inv(q)
    requires a in ExpireTenants(q, ids, now).0.schedule && b in ExpireTenants(q, ids, now).0.schedule
    ensures InPlace(q, ExpireTenants(q, ids, now).0, a, b)
    decreases |ids|
  {
    hide Items, Inv, Shrink, Pos, Live, Dead;
    if ids == [] {
      ScheduledBoth(q, a, b);
    } else if ids[0] !in q.tenants {
      ExpireTenantsInPlace(q, ids[1..], now, a, b);
    } else {
      var work := q.tenants[ids[0]].work;
      LiveDeadSplit(work, now);
      ShrinkKeepsInv(q, ids[0], Live(work, now), Dead(work, now));
      ExpireTenantsInPlace(ExpireTenant(q, ids[0], now), ids[1..], now, a, b);
      ShrinkInPlace(q, ids[0], Live(work, now), Dead(work, now), a, b);
    }
  }

  lemma ScheduledBoth(q: Queue, a: string, b: string)
    requires Inv(q) && a in q.schedule && b in q.schedule
    ensures Scheduled(q, a) && Scheduled(q, b)
  {
    assert Waiting(q.tenants, a) && Waiting(q.tenants, b);
  }

  lemma ExpireInPlace(q: Queue, now: nat, a: string, b: string)
    requires Inv(q)
    requires a in Expire(q, now).0.schedule && b in Expire(q, now).0.schedule
    ensures InPlace(q, Expire(q, now).0, a, b)
    ensures Expire(q, now).0.tenants[a].weight == q.tenants[a].weight
    ensures Expire(q, now).0.tenants[b].weight == q.tenants[b].weight
  {
    hide Items, Inv, ExpireTenants, Pos, Live;
    ExpireEffect(q, now);
    ExpireTenantsInPlace(q, SortedNames(q.tenants.Keys), now, a, b);
  }

  lemma PosAppend(s: seq<string>, x: string, t: string)
    requires t in s
    ensures Pos(s + [x], t) == Pos(s, t)
  {
    assert s == [s[0]] + s[1..];
    assert (s + [x])[1..] == s[1..] + [x];
  }

  lemma EnqueueInPlace(q: Queue, w: Work, now: nat, a: string, b: string)
    requires Inv(q) && a in q.schedule && b in q.schedule
    ensures InPlace(q, Enqueue(q, w, now).0, a, b)
  {
    hide Items, CountsOk, Pos;
    ScheduledBoth(q, a, b);
    PosAppend(q.schedule, w.tenant, a);
    PosAppend(q.schedule, w.tenant, b);
  }

  lemma CancelInPlace(q: Queue, key: string, a: string, b: string)
    requires Inv(q) && a in Cancel(q, key).0.schedule && b in Cancel(q, key).0.schedule
    ensures InPlace(q, Cancel(q, key).0, a, b)
  {
    hide Items, Inv, Pos, Shrink;
    if exists t: string, i: nat :: Holds(q, key, t, i) {
      var (t, i) := Where(q, key);
      var work := q.tenants[t].work;
      ShrinkInPlace(q, t, work[..i] + work[i + 1..], [work[i]], a, b);
    } else {
      ScheduledBoth(q, a, b);
    }
  }

  /** Every operation but a dequeue leaves the tenants that stay scheduled in place. */
  lemma QuietStepInPlace(q: Queue, op: Op, a: string, b: string)
    requires Inv(q) && !op.DoDequeue? && a in q.schedule && b in q.schedule
    requires a in Step(q, op).0.schedule && b in Step(q, op).0.schedule
    ensures InPlace(q, Step(q, op).0, a, b)
    ensures Step(q, op).1.served == []
  {
    hide Items, Inv, Pos, Enqueue, Cancel, Expire;
    match op
    case DoEnqueue(w, now) => EnqueueInPlace(q, w, now, a, b);
    case DoCancel(key) => CancelInPlace(q, key, a, b);
    case DoExpire(now) => ExpireInPlace(q, now, a, b);
    case DoWeight(t, weight) => ScheduledBoth(q, a, b);
  }

  // ---------- Starvation ----------

  lemma {:induction false} ServeApproaches(q: Queue, attempts: nat, t: string, n: nat)
    requires Inv(q) && t in q.schedule && |q.schedule| <= n
    requires OfTenant(Listed(Serve(q, attempts).1), t) == []
    requires Scheduled(Serve(q, attempts).0, t)
    ensures t in q.tenants
    ensures Distance(Serve(q, attempts).0, t, n) + |Listed(Serve(q, attempts).1)| <= Distance(q, t, n)
    ensures Serve(q, attempts).0.limits == q.limits
    decreases attempts
  {
    hide Items, CountsOk, Visit, Pos, Distance;
    DistanceBounds(q, t, n);
    if attempts > 0 {
      VisitKeepsInv(q);
      VisitEffect(q);
      VisitApproaches(q, t, n);
      var (r, served) := Visit(q);
      if served.None? {
        ServeApproaches(r, attempts - 1, t, n);
      } else {
        OfTenantSingle(served.value, t);
      }
    }
  }

  lemma DistanceInPlace(q: Queue, r: Queue, t: string, n: nat)
    requires InPlace(q, r, t, t)
    ensures Distance(r, t, n) <= Distance(q, t, n)
  {
  }

  lemma StepApproaches(q: Queue, op: Op, t: string)
    requires Inv(q) && t in q.schedule
    requires t in Step(q, op).0.schedule
    requires OfTenant(Step(q, op).1.served, t) == []
    ensures var (r, e) := Step(q, op);
            && Scheduled(q, t) && Scheduled(r, t)
            && r.limits == q.limits
            && Distance(r, t, q.limits.maximumTenants) + |e.served| <= Distance(q, t, q.limits.maximumTenants)
  {
    hide Items, Inv, Expire, Enqueue, Cancel, SetTenantWeight, Serve, Distance, Pos;
    var n := q.limits.maximumTenants;
    StepAccounts(q, op);
    var r := Step(q, op).0;
    ScheduledBoth(q, t, t);
    ScheduledBoth(r, t, t);
    if op.DoDequeue? {
      ExpireEffect(q, op.at);
      var p := Expire(q, op.at).0;
      var attempts := |p.schedule| * FAIRNESS_QUANTUM;
      ServeStaysScheduled(p, attempts, t);
      ExpireInPlace(q, op.at, t, t);
      ScheduleShort(p);
      ServeApproaches(p, attempts, t, n);
      DistanceInPlace(q, p, t, n);
    } else {
      QuietStepInPlace(q, op, t, t);
      DistanceInPlace(q, r, t, n);
    }
  }

  lemma {:induction false} ServeStaysScheduled(q: Queue, attempts: nat, t: string)
    requires Inv(q) && t in Serve(q, attempts).0.schedule
    ensures t in q.schedule
    decreases attempts
  {
    hide Items, CountsOk, Visit;
    if attempts > 0 && q.schedule != [] {
      VisitKeepsInv(q);
      VisitEffect(q);
      var (r, served) := Visit(q);
      if served.None? { ServeStaysScheduled(r, attempts - 1, t); }
      assert q.schedule == [q.schedule[0]] + q.schedule[1..];
    }
  }

  /** `t` has work queued before and after every operation of the run. */
  ghost predicate StaysBacklogged(q: Queue, ops: seq<Op>, t: string)
    requires Inv(q)
    decreases |ops|
  {
    && t in q.schedule
    && (ops == [] || (StepAccounts(q, ops[0]); StaysBacklogged(Step(q, ops[0]).0, ops[1..], t)))
  }

  lemma {:induction false} RunApproaches(q: Queue, ops: seq<Op>, t: string)
    requires Inv(q) && StaysBacklogged(q, ops, t)
    requires OfTenant(Effects(q, ops).served, t) == []
    ensures t in q.tenants
    ensures |Effects(q, ops).served| <= Distance(q, t, q.limits.maximumTenants)
    decreases |ops|
  {
    hide Items, Inv, Step, Distance, Pos;
    ScheduleShort(q);
    DistanceBounds(q, t, q.limits.maximumTenants);
    if ops != [] {
      StepAccounts(q, ops[0]);
      var (r, e) := Step(q, ops[0]);
      OfTenantConcat(e.served, Effects(r, ops[1..]).served, t);
      assert t in r.schedule;
      StepApproaches(q, ops[0], t);
      RunApproaches(r, ops[1..], t);
    }
  }

  /** No starvation: while a backlogged tenant waits, fewer than 100 * maximum_tenants items go to others. */
  lemma NoStarvation(q: Queue, ops: seq<Op>, t: string)
    requires Inv(q) && StaysBacklogged(q, ops, t)
    requires OfTenant(Effects(q, ops).served, t) == []
    ensures |Effects(q, ops).served| < FAIRNESS_QUANTUM * q.limits.maximumTenants
  {
    hide Items, Inv, Effects, Distance;
    RunApproaches(q, ops, t);
    ScheduleShort(q);
    InBacklog(q, ops, t);
    DistanceBounds(q, t, q.limits.maximumTenants);
  }

  lemma InBacklog(q: Queue, ops: seq<Op>, t: string)
    requires Inv(q) && StaysBacklogged(q, ops, t)
    ensures t in q.schedule
  {
  }

  // ---------- Weighted fairness ----------

  /** How often `t` comes to the head of the schedule while one item is looked for. */
  ghost function Visits(q: Queue, attempts: nat, t: string): nat
    requires Inv(q)
    decreases attempts
  {
    if attempts == 0 || q.schedule == [] then 0
    else
      VisitKeepsInv(q);
      var (r, served) := Visit(q);
      (if q.schedule[0] == t then 1 else 0) + (if served.Some? then 0 else Visits(r, attempts - 1, t))
  }

  ghost function Ahead(q: Queue, a: string, b: string): nat
    requires a in q.schedule && b in q.schedule
  {
    if Pos(q.schedule, a) < Pos(q.schedule, b) then 1 else 0
  }

  lemma Distribute(w: int, u: int, v: int)
    ensures w * (u + v) == w * u + w * v
  {
  }

  /** Every visit pays the tenant its weight, and an item costs the quantum. */
  lemma {:induction false} ServeLedger(q: Queue, attempts: nat, a: string)
    requires Inv(q) && Scheduled(q, a) && Scheduled(Serve(q, attempts).0, a)
    ensures var (r, served) := Serve(q, attempts);
            && r.tenants[a].weight == q.tenants[a].weight
            && FAIRNESS_QUANTUM * |OfTenant(Listed(served), a)| + r.tenants[a].deficit ==
               q.tenants[a].deficit + q.tenants[a].weight * Visits(q, attempts, a)
    decreases attempts
  {
    hide Items, CountsOk, Visit;
    if attempts > 0 {
      VisitKeepsInv(q);
      VisitEffect(q);
      var (p, served) := Visit(q);
      var w := q.tenants[a].weight;
      if served.None? {
        ServeLedger(p, attempts - 1, a);
        Distribute(w, 1, Visits(p, attempts - 1, a));
      } else {
        OfTenantSingle(served.value, a);
        assert w * 1 == w && w * 0 == 0;
      }
    }
  }

  lemma VisitAlternates(q: Queue, a: string, b: string)
    requires Inv(q) && a != b && a in q.schedule && b in q.schedule
    ensures Waiting(q.tenants, q.schedule[0])
    ensures var r := Visit(q).0;
            a in r.schedule && b in r.schedule ==>
              (if q.schedule[0] == a then 1 else 0) - (if q.schedule[0] == b then 1 else 0)
              == Ahead(q, a, b) - Ahead(r, a, b)
  {
    hide Items, CountsOk, Visit, Pos;
    VisitEffect(q);
    var r := Visit(q).0;
    var t := q.schedule[0];
    assert q.schedule == [t] + q.schedule[1..];
    RotatePositions(q.schedule, a);
    RotatePositions(q.schedule, b);
    if a in r.schedule && b in r.schedule && t !in r.tenants {
      assert q.schedule[1..][Pos(q.schedule, a) - 1] == a && q.schedule[1..][Pos(q.schedule, b) - 1] == b;
      PosIs(r.schedule, a, Pos(q.schedule, a) - 1);
      PosIs(r.schedule, b, Pos(q.schedule, b) - 1);
    }
  }

  /** Two scheduled tenants take turns. */
  lemma {:induction false} ServeAlternates(q: Queue, attempts: nat, a: string, b: string)
    requires Inv(q) && a != b && a in q.schedule && b in q.schedule
    requires a in Serve(q, attempts).0.schedule && b in Serve(q, attempts).0.schedule
    ensures Visits(q, attempts, a) - Visits(q, attempts, b) == Ahead(q, a, b) - Ahead(Serve(q, attempts).0, a, b)
    decreases attempts
  {
    hide Items, CountsOk, Visit, Pos, Ahead;
    if attempts > 0 {
      VisitKeepsInv(q);
      VisitEffect(q);
      VisitAlternates(q, a, b);
      var (r, served) := Visit(q);
      if served.None? {
        assert q.schedule == [q.schedule[0]] + q.schedule[1..];
        ServeAlternates(r, attempts - 1, a, b);
      }
    }
  }

  ghost function StepVisits(q: Queue, op: Op, t: string): nat
    requires Inv(q)
  {
    if op.DoDequeue? then
      ExpireEffect(q, op.at);
      var p := Expire(q, op.at).0;
      Visits(p, |p.schedule| * FAIRNESS_QUANTUM, t)
    else 0
  }

  ghost function RunVisits(q: Queue, ops: seq<Op>, t: string): nat
    requires Inv(q)
    decreases |ops|
  {
    if ops == [] then 0
    else
      StepAccounts(q, ops[0]);
      StepVisits(q, ops[0], t) + RunVisits(Step(q, ops[0]).0, ops[1..], t)
  }

  lemma StepLedger(q: Queue, op: Op, a: string, b: string)
    requires Inv(q) && a != b && a in q.schedule && b in q.schedule
    requires a in Step(q, op).0.schedule && b in Step(q, op).0.schedule
    ensures var (r, e) := Step(q, op);
            && Scheduled(q, a) && Scheduled(r, a)
            && FAIRNESS_QUANTUM * |OfTenant(e.served, a)| + r.tenants[a].deficit ==
               q.tenants[a].deficit + q.tenants[a].weight * StepVisits(q, op, a)
            && StepVisits(q, op, a) - StepVisits(q, op, b) == Ahead(q, a, b) - Ahead(r, a, b)
  {
    hide Items, Inv, Expire, Enqueue, Cancel, SetTenantWeight, Serve, Visits, Pos;
    StepAccounts(q, op);
    var r := Step(q, op).0;
    ScheduledBoth(q, a, b);
    ScheduledBoth(r, a, b);
    if op.DoDequeue? {
      ExpireEffect(q, op.at);
      var p := Expire(q, op.at).0;
      var attempts := |p.schedule| * FAIRNESS_QUANTUM;
      ServeStaysScheduled(p, attempts, a);
      ServeStaysScheduled(p, attempts, b);
      ExpireInPlace(q, op.at, a, b);
      ServeLedger(p, attempts, a);
      ServeAlternates(p, attempts, a, b);
    } else {
      QuietStepInPlace(q, op, a, b);
    }
  }

  /** `t` is scheduled with weight `w` before and after every operation of the run. */
  ghost predicate StaysWeighted(q: Queue, ops: seq<Op>, t: string, w: nat)
    requires Inv(q)
    decreases |ops|
  {
    && Scheduled(q, t) && q.tenants[t].weight == w
    && (ops == [] || (StepAccounts(q, ops[0]); StaysWeighted(Step(q, ops[0]).0, ops[1..], t, w)))
  }

  lemma {:induction false} RunLedger(q: Queue, ops: seq<Op>, a: string, wa: nat, b: string, wb: nat)
    requires Inv(q) && a != b && StaysWeighted(q, ops, a, wa) && StaysWeighted(q, ops, b, wb)
    ensures Scheduled(q, a) && Scheduled(q, b) && Scheduled(Run(q, ops), a) && Scheduled(Run(q, ops), b)
    ensures FAIRNESS_QUANTUM * |OfTenant(Effects(q, ops).served, a)| + Run(q, ops).tenants[a].deficit ==
            q.tenants[a].deficit + wa * RunVisits(q, ops, a)
    ensures RunVisits(q, ops, a) - RunVisits(q, ops, b) == Ahead(q, a, b) - Ahead(Run(q, ops), a, b)
    decreases |ops|
  {
    hide Items, Inv, Step, StepVisits, Ahead;
    if ops != [] {
      StepAccounts(q, ops[0]);
      var (r, e) := Step(q, ops[0]);
      assert Scheduled(r, a) && Scheduled(r, b);
      StepLedger(q, ops[0], a, b);
      RunLedger(r, ops[1..], a, wa, b, wb);
      OfTenantConcat(e.served, Effects(r, ops[1..]).served, a);
      Distribute(wa, StepVisits(q, ops[0], a), RunVisits(r, ops[1..], a));
    }
  }

  lemma ScaleBound(w: nat, x: int)
    requires -99 <= x <= 99
    ensures -(99 * w) <= w * x <= 99 * w
  {
    assert w * (99 - x) >= 0 && w * (99 + x) >= 0;
    Distribute(w, 99, -x);
    Distribute(w, 99, x);
  }

  lemma TurnBound(k: int, turns: int)
    requires 0 <= k && -1 <= turns <= 1
    ensures -k <= k * turns <= k
  {
    assert turns == -1 || turns == 0 || turns == 1;
  }

  lemma CrossMultiply(wa: int, wb: int, va: int, vb: int, x: int, y: int)
    ensures wb * (wa * va + x) - wa * (wb * vb + y) == wa * wb * (va - vb) + wb * x - wa * y
  {
  }

  lemma Proportional(wa: nat, wb: nat, va: nat, vb: nat, sa: nat, sb: nat, x: int, y: int)
    requires 100 * sa == wa * va + x && 100 * sb == wb * vb + y
    requires -1 <= va - vb <= 1 && -99 <= x <= 99 && -99 <= y <= 99
    ensures -(wa * wb + 99 * (wa + wb)) <= wb * (100 * sa) - wa * (100 * sb) <= wa * wb + 99 * (wa + wb)
  {
    CrossMultiply(wa, wb, va, vb, x, y);
    ScaleBound(wb, x);
    ScaleBound(wa, y);
    TurnBound(wa * wb, va - vb);
  }

  /** Weighted fairness: over any run in which two tenants stay backlogged with fixed weights, the items they are
      handed stay proportional to the weights, up to a constant that does not grow with the run. */
  lemma WeightedFairness(q: Queue, ops: seq<Op>, a: string, wa: nat, b: string, wb: nat)
    requires Inv(q) && a != b && StaysWeighted(q, ops, a, wa) && StaysWeighted(q, ops, b, wb)
    ensures var sa, sb := |OfTenant(Effects(q, ops).served, a)|, |OfTenant(Effects(q, ops).served, b)|;
            -(wa * wb + 99 * (wa + wb)) <= wb * (100 * sa) - wa * (100 * sb) <= wa * wb + 99 * (wa + wb)
  {
    hide Items, CountsOk, Run, Effects, RunVisits, StaysWeighted, ScheduleOk;
    RunLedger(q, ops, a, wa, b, wb);
    RunLedger(q, ops, b, wb, a, wa);
    Conservation(q, ops);
    var r := Run(q, ops);
    assert TenantOk(q.limits, a, q.tenants[a]) && TenantOk(q.limits, b, q.tenants[b]);
    assert TenantOk(r.limits, a, r.tenants[a]) && TenantOk(r.limits, b, r.tenants[b]);
    Proportional(wa, wb, RunVisits(q, ops, a), RunVisits(q, ops, b),
                 |OfTenant(Effects(q, ops).served, a)|, |OfTenant(Effects(q, ops).served, b)|,
                 q.tenants[a].deficit - r.tenants[a].deficit, q.tenants[b].deficit - r.tenants[b].deficit);
  }
}
