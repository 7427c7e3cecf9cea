/** What the fair queue lets in: exactly when a submission or a weight is accepted, and which rejection it gets if not. */
module FairQueueAdmission {
  import opened Outcomes
  import opened FairQueue
  import opened FairQueueRuns

  /** Nothing queued has this key. */
  ghost predicate FreshKey(q: Queue, key: string) {
    forall v | v in Items(q.tenants) :: v.key != key
  }

  predicate RoomForTenant(q: Queue, t: string) {
    t in q.tenants || |q.tenants| < q.limits.maximumTenants
  }

  lemma KeySetIsExact(q: Queue, key: string)
    requires Inv(q)
    ensures key in q.keys <==> !FreshKey(q, key)
  {
    hide Items;
  }

  /** An item is accepted if and only if it is valid, nothing queued has its key, the queue and its tenant's part of it
      have room, and its tenant is known or there is room for one more; the first of these that fails is the answer. */
  lemma AcceptedIff(q: Queue, w: Work, now: nat)
    requires Inv(q)
    ensures var r := Enqueue(q, w, now).1;
            var valid, unused := w.Valid(now), FreshKey(q, w.key);
            var room, known := |Items(q.tenants)| < q.limits.global, RoomForTenant(q, w.tenant);
            var own := |Backlog(q, w.tenant)| < q.limits.perTenant;
            && (r.Ok? <==> valid && unused && room && known && own)
            && (r == Err(InvalidRequest) <==> !valid)
            && (r == Err(Duplicate) <==> valid && !unused)
            && (r == Err(GlobalCapacity) <==> valid && unused && !room)
            && (r == Err(TenantCardinality) <==> valid && unused && room && !known)
            && (r == Err(TenantCapacity) <==> valid && unused && room && known && !own)
  {
    hide Items;
    KeySetIsExact(q, w.key);
  }

  /** An accepted item joins the end of its tenant's backlog; a tenant that had none joins the end of the schedule. Nothing
      else changes. */
  lemma AcceptedJoinsEnd(q: Queue, w: Work, now: nat)
    requires Inv(q) && Enqueue(q, w, now).1.Ok?
    ensures var r := Enqueue(q, w, now).0;
            && Backlog(r, w.tenant) == Backlog(q, w.tenant) + [w]
            && r.schedule == (if w.tenant in q.schedule then q.schedule else q.schedule + [w.tenant])
            && (forall t | t != w.tenant :: (t in r.tenants <==> t in q.tenants) && (t in q.tenants ==> r.tenants[t] == q.tenants[t]))
            && w.tenant in r.tenants
            && (w.tenant in q.tenants ==>
                  r.tenants[w.tenant].weight == q.tenants[w.tenant].weight && r.tenants[w.tenant].deficit == q.tenants[w.tenant].deficit)
            && (w.tenant !in q.tenants ==> r.tenants[w.tenant].weight == 1 && r.tenants[w.tenant].deficit == 0)
  {
    hide Items, CountsOk;
    assert w.tenant in q.schedule <==> Waiting(q.tenants, w.tenant);
  }

  /** A weight is accepted if and only if it is between 1 and 100 and its tenant is known or there is room for one more;
      then it is the tenant's weight, and nothing else changes. */
  lemma WeightTakesEffect(q: Queue, t: string, weight: nat)
    requires Inv(q)
    ensures var (r, outcome) := SetTenantWeight(q, t, weight);
            && (outcome.Ok? <==> 1 <= weight <= 100 && RoomForTenant(q, t))
            && (outcome == Err(InvalidWeight) <==> !(1 <= weight <= 100))
            && (outcome.Err? ==> r == q)
            && (outcome.Ok? ==>
                  && t in r.tenants && r.tenants[t].weight == weight
                  && Backlog(r, t) == Backlog(q, t) && r.schedule == q.schedule
                  && r.tenants[t].deficit == (if t in q.tenants then q.tenants[t].deficit else 0)
                  && forall u | u != t :: (u in r.tenants <==> u in q.tenants) && (u in q.tenants ==> r.tenants[u] == q.tenants[u]))
  {
    hide Items;
  }

  /** A cancellation takes out the one item under its key, if there is one. The tenant keeps the rest of its backlog in
      order, its weight, its deficit and its place, or is forgotten if there is no rest. Nothing else changes. */
  lemma CancelTakesOne(q: Queue, key: string)
    requires Inv(q)
    ensures var (r, removed) := Cancel(q, key);
            && (removed.None? <==> FreshKey(q, key)) && (removed.None? ==> r == q)
            && (removed.Some? ==>
                  var t := removed.value.tenant;
                  && removed.value.key == key && removed.value in Backlog(q, t)
                  && (exists i: nat :: i < |Backlog(q, t)| && Backlog(q, t)[i] == removed.value
                                       && Backlog(r, t) == Backlog(q, t)[..i] + Backlog(q, t)[i + 1..])
                  && (t in r.tenants <==> |Backlog(q, t)| > 1)
                  && (t in r.tenants ==> t in q.tenants && r.tenants[t] == q.tenants[t].(work := Backlog(r, t)) && r.schedule == q.schedule)
                  && (t !in r.tenants ==> r.schedule == Without(q.schedule, t))
                  && forall u | u != t :: (u in r.tenants <==> u in q.tenants) && (u in q.tenants ==> r.tenants[u] == q.tenants[u]))
  {
    KeySetIsExact(q, key);
    QueuedKeyHeld(q, key);
    hide Items, CountsOk;
    var (r, removed) := Cancel(q, key);
    if removed.Some? {
      var (t, i) := Where(q, key);
      assert TenantOk(q.limits, t, q.tenants[t]) && removed.value in q.tenants[t].work;
      assert Backlog(r, t) == q.tenants[t].work[..i] + q.tenants[t].work[i + 1..];
    }
  }
}
