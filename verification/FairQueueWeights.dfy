/** How long the queue remembers a tenant's weight. */
module FairQueueWeights {
  import opened FairQueue
  import opened FairQueueRuns
  import opened FairQueueTurns
  import BoundedFairQueues

  /** The tenant still has work after the operation, or the operation does not look at it. A dequeue takes the last
      work of the tenant that is next in line once the expired work is gone. */
  ghost predicate Survives(q: Queue, op: Op, t: string)
    requires Inv(q) && t in q.tenants
  {
    var work := q.tenants[t].work;
    match op
    case DoEnqueue(_, _) => true
    case DoCancel(key) => !(|work| == 1 && work[0].key == key)
    case DoExpire(now) => Live(work, now) != []
    case DoDequeue(now) =>
      ExpireEffect(q, now);
      Live(work, now) != [] && !(|Live(work, now)| == 1 && Next(Expire(q, now).0, t))
    case DoWeight(_, _) => true
  }

  ghost predicate SameWeight(q: Queue, r: Queue, t: string)
    requires t in q.tenants
  {
    t in r.tenants && r.tenants[t].weight == q.tenants[t].weight
  }

  lemma CancelWeight(q: Queue, key: string, t: string)
    requires Inv(q) && t in q.tenants
    ensures t in Cancel(q, key).0.tenants <==> Survives(q, DoCancel(key), t)
    ensures t in Cancel(q, key).0.tenants ==> SameWeight(q, Cancel(q, key).0, t)
  {
    hide Items, Inv;
    var work := q.tenants[t].work;
    if exists u: string, i: nat :: Holds(q, key, u, i) {
      var (u, i) := Where(q, key);
      if |work| == 1 && work[0].key == key {
        BoundedFairQueues.UniquelyHeld(q, key, t, 0, u, i);
      }
    } else if |work| == 1 {
      assert !Holds(q, key, t, 0);
    }
  }

  lemma {:induction false} ServeWeight(q: Queue, attempts: nat, t: string)
    requires Inv(q) && t in q.tenants
    ensures var (r, served) := Serve(q, attempts);
            && (t in r.tenants <==> !(served.Some? && served.value.tenant == t && |q.tenants[t].work| == 1))
            && (t in r.tenants ==> SameWeight(q, r, t))
            && (served.Some? && served.value.tenant == t ==> q.tenants[t].work != [] && served.value == q.tenants[t].work[0])
    decreases attempts
  {
    hide Items, CountsOk, Visit;
    if attempts > 0 && q.schedule != [] {
      VisitKeepsInv(q);
      VisitEffect(q);
      var (r, served) := Visit(q);
      if served.None? {
        ServeWeight(r, attempts - 1, t);
      } else if served.value.tenant == t {
        ServedLast(q, t);
      }
    }
  }

  lemma ServedLast(q: Queue, t: string)
    requires Inv(q) && q.schedule != [] && q.schedule[0] == t && t in q.tenants && Visit(q).1.Some?
    ensures t in Visit(q).0.tenants <==> |q.tenants[t].work| != 1
  {
    hide Items, CountsOk;
    HeadFacts(q);
  }

  /** Whose work a dequeue hands out. */
  lemma ServedTenant(q: Queue, now: nat, t: string)
    requires Inv(q)
    ensures var p, served := Expire(q, now).0, Dequeue(q, now).1;
            Inv(p) && (served.Some? && served.value.tenant == t <==> Next(p, t))
  {
    DequeueServesNext(q, now);
    var p := Expire(q, now).0;
    if p.schedule != [] {
      assert p.schedule[..|p.schedule|] == p.schedule;
      var u := SomebodyIsNext(p, |p.schedule|);
      assert Next(p, u) && TenantOk(p.limits, u, p.tenants[u]);
      if Next(p, t) { TurnsDiffer(p, t, u); }
    }
  }

  lemma DequeueWeight(q: Queue, now: nat, t: string)
    requires Inv(q) && t in q.tenants
    ensures t in Dequeue(q, now).0.tenants <==> Survives(q, DoDequeue(now), t)
    ensures t in Dequeue(q, now).0.tenants ==> SameWeight(q, Dequeue(q, now).0, t)
  {
    hide Items, Expire, Serve, Next;
    ExpireEffect(q, now);
    var p := Expire(q, now).0;
    var attempts := |p.schedule| * FAIRNESS_QUANTUM;
    if t in p.tenants {
      ServeWeight(p, attempts, t);
      ServedTenant(q, now, t);
    } else {
      ServeAddsNone(p, attempts, t);
    }
  }

  lemma {:induction false} ServeAddsNone(q: Queue, attempts: nat, t: string)
    requires Inv(q) && t !in q.tenants
    ensures t !in Serve(q, attempts).0.tenants
    decreases attempts
  {
    hide Items, CountsOk, Visit;
    if attempts > 0 && q.schedule != [] {
      VisitKeepsInv(q);
      VisitEffect(q);
      if Visit(q).1.None? { ServeAddsNone(Visit(q).0, attempts - 1, t); }
    }
  }

  /** An operation other than setting this tenant's weight leaves the weight as it was if and only if the tenant still has
      work, or had none and the operation is no expiry pass; otherwise the tenant is forgotten. */
  lemma WeightKeptIff(q: Queue, op: Op, t: string)
    requires Inv(q) && t in q.tenants && !(op.DoWeight? && op.tenant == t)
    ensures SameWeight(q, Step(q, op).0, t) <==> Survives(q, op, t)
    ensures t in Step(q, op).0.tenants <==> Survives(q, op, t)
  {
    hide Items, Inv, Expire, Dequeue, Cancel;
    match op
    case DoEnqueue(w, now) =>
    case DoCancel(key) => CancelWeight(q, key, t);
    case DoDequeue(now) => DequeueWeight(q, now, t);
    case DoExpire(now) => ExpireEffect(q, now);
    case DoWeight(u, weight) =>
  }

  /** Whoever comes back comes back with weight one. */
  lemma ReturnsWithWeightOne(q: Queue, op: Op, t: string)
    requires Inv(q) && t !in q.tenants && !(op.DoWeight? && op.tenant == t) && t in Step(q, op).0.tenants
    ensures op.DoEnqueue? && op.work.tenant == t && Step(q, op).0.tenants[t].weight == 1
  {
    hide Items, Expire, Serve;
    match op
    case DoEnqueue(w, now) =>
    case DoCancel(key) =>
    case DoDequeue(now) =>
      ExpireEffect(q, now);
      ServeAddsNone(Expire(q, now).0, |Expire(q, now).0.schedule| * FAIRNESS_QUANTUM, t);
    case DoExpire(now) => ExpireEffect(q, now);
    case DoWeight(u, weight) =>
  }

  /** For one: a weight set before there is work does not outlive the next expiry pass. */
  lemma WeightIsForgotten(limits: Limits, t: string, weight: nat, now: nat, w: Work)
    requires limits.Valid() && 1 <= weight <= 100 && w.tenant == t && w.Valid(now)
    ensures Inv(New(limits))
    ensures var weighted := SetTenantWeight(New(limits), t, weight).0;
            && t in weighted.tenants && weighted.tenants[t].weight == weight
            && Inv(weighted)
            && var after := Enqueue(Expire(weighted, now).0, w, now);
               after.1.Ok? && t in after.0.tenants && after.0.tenants[t].weight == 1
  {
    hide Items;
    NewIsEmpty(limits);
    SetTenantWeightKeepsInv(New(limits), t, weight);
    var q := SetTenantWeight(New(limits), t, weight).0;
    ExpireEffect(q, now);
    assert forall u :: u !in Expire(q, now).0.tenants;
  }
}
