/** The queue as the source keeps it: one object whose fields the operations update in place. Each method is
    proved to do what the value-level operation of `FairQueue` does. */
module BoundedFairQueues {
  import opened Orders
  import opened Outcomes
  import opened Numbers
  import opened FairQueue

  method Open(limits: Limits) returns (r: Result<BoundedFairQueue, Rejection>)
    ensures r.Ok? <==> limits.Valid()
    ensures r.Ok? ==> fresh(r.value) && r.value.Valid() && r.value.Value() == New(limits)
    ensures r.Err? ==> r.error == InvalidConfiguration
  {
    if !limits.Valid() {
      return Err(InvalidConfiguration);
    }
    var queue := new BoundedFairQueue(limits);
    return Ok(queue);
  }

  /** The first index at which `key` is queued. */
  function Position(work: seq<Work>, key: string): (p: Option<nat>)
    ensures p.Some? ==> p.value < |work| && work[p.value].key == key
    ensures p.None? ==> forall i | 0 <= i < |work| :: work[i].key != key
  {
    if work == [] then None
    else if work[0].key == key then Some(0)
    else
      var p := Position(work[1..], key);
      if p.Some? then Some(p.value + 1) else None
  }

  lemma UniquelyHeld(q: Queue, key: string, t: string, i: nat, u: string, j: nat)
    requires Inv(q) && Holds(q, key, t, i) && Holds(q, key, u, j)
    ensures t == u && i == j
  {
    hide Items;
    var w, v := q.tenants[t].work[i], q.tenants[u].work[j];
    ItemsSplit(q.tenants, t);
    ItemsSplit(q.tenants, u);
    assert w in multiset(q.tenants[t].work) && v in multiset(q.tenants[u].work);
    assert w in Items(q.tenants) && v in Items(q.tenants);
    assert w == v;
    assert w in q.tenants[t].work && v in q.tenants[u].work;
    assert Items(q.tenants)[w] == 1;
    if i != j { Repeated(q.tenants[t].work, i, j); }
  }

  lemma Repeated(work: seq<Work>, i: nat, j: nat)
    requires i < |work| && j < |work| && i != j && work[i] == work[j]
    ensures multiset(work)[work[i]] >= 2
  {
    var a, b := if i < j then i else j, if i < j then j else i;
    assert work == work[..a] + [work[a]] + work[a + 1..b] + [work[b]] + work[b + 1..];
  }

  lemma RoomForTenants(q: Queue)
    requires Inv(q)
    ensures q.limits.perTenant > 0
    ensures forall t | t in q.tenants :: |q.tenants[t].work| <= q.total
  {
    hide Items;
    forall t | t in q.tenants ensures |q.tenants[t].work| <= q.total {
      ItemsSplit(q.tenants, t);
      assert |multiset(q.tenants[t].work)| <= |Items(q.tenants)|;
    }
  }

  /** Moving the head of `work` to the end of the kept or of the expired items. */
  lemma SiftStep(kept: seq<Work>, gone: seq<Work>, work: seq<Work>, now: nat)
    requires work != []
    ensures work[0].deadline > now ==>
              && kept + [work[0]] + Live(work[1..], now) == kept + Live(work, now)
              && Dead(work[1..], now) == Dead(work, now)
    ensures work[0].deadline <= now ==>
              && gone + [work[0]] + Dead(work[1..], now) == gone + Dead(work, now)
              && Live(work[1..], now) == Live(work, now)
  {
  }

  lemma NothingLeft(now: nat)
    ensures Live([], now) == Dead([], now) == [] && KeysOf([]) == {}
  {
  }

  lemma KeysOfAppend(work: seq<Work>, w: Work)
    ensures KeysOf(work + [w]) == KeysOf(work) + {w.key}
  {
  }

  lemma HeadOnce(q: Queue)
    requires Inv(q) && q.schedule != []
    ensures Without(q.schedule[1..] + [q.schedule[0]], q.schedule[0]) == q.schedule[1..]
  {
    hide Items, CountsOk;
    assert q.schedule == [q.schedule[0]] + q.schedule[1..];
    WithoutLast(q.schedule[1..], q.schedule[0]);
  }

  lemma ExpireKeepsOthers(q: Queue, t: string, now: nat)
    requires t in q.tenants
    ensures forall u | u in q.tenants && u != t :: u in FairQueue.ExpireTenant(q, t, now).tenants
  {
  }

  class BoundedFairQueue {
    const limits: Limits
    var total: nat
    var queuedKeys: set<string>
    var tenants: map<string, TenantQueue>
    var schedule: seq<string>

    ghost function Value(): Queue
      reads this
    {
      Queue(limits, total, queuedKeys, tenants, schedule)
    }

    ghost predicate Valid()
      reads this
    {
      Inv(Value())
    }

    constructor (limits: Limits)
      requires limits.Valid()
      ensures Valid() && Value() == New(limits)
    {
      this.limits := limits;
      total, queuedKeys, tenants, schedule := 0, {}, map[], [];
    }

    method SetTenantWeight(tenant: string, weight: nat) returns (r: Result<(), Rejection>)
      requires Valid()
      modifies this
      ensures Valid()
      ensures (Value(), r) == FairQueue.SetTenantWeight(old(Value()), tenant, weight)
    {
      hide Items;
      SetTenantWeightKeepsInv(Value(), tenant, weight);
      if !(1 <= weight <= 100) {
        return Err(InvalidWeight);
      }
      if tenant in tenants {
        tenants := tenants[tenant := tenants[tenant].(weight := weight)];
      } else {
        if |tenants| >= limits.maximumTenants {
          return Err(TenantCardinality);
        }
        tenants := tenants[tenant := TenantQueue(weight, 0, [])];
      }
      return Ok(());
    }

    method Enqueue(work: Work, now: nat) returns (r: Result<(), Rejection>)
      requires Valid()
      modifies this
      ensures Valid()
      ensures (Value(), r) == FairQueue.Enqueue(old(Value()), work, now)
    {
      hide Items, Inv;
      EnqueueKeepsInv(Value(), work, now);
      if !work.Valid(now) {
        return Err(InvalidRequest);
      }
      if work.key in queuedKeys {
        return Err(Duplicate);
      }
      if total >= limits.global {
        return Err(GlobalCapacity);
      }
      if work.tenant !in tenants {
        r := SetTenantWeight(work.tenant, 1);
        if r.Err? {
          return;
        }
      }
      var queue := tenants[work.tenant];
      if |queue.work| >= limits.perTenant {
        // A tenant registered just above is empty, so it cannot be full.
        RoomForTenants(old(Value()));
        assert old(work.tenant in tenants);
        return Err(TenantCapacity);
      }
      if queue.work == [] {
        schedule := schedule + [work.tenant];
      }
      queuedKeys := queuedKeys + {work.key};
      tenants := tenants[work.tenant := queue.(work := queue.work + [work])];
      total := total + 1;
      return Ok(());
    }

    /** A tenant without work is dropped from the map and from the schedule. */
    method RemoveEmptyTenant(tenant: string)
      modifies this`tenants, this`schedule
      ensures if old(tenant in tenants && tenants[tenant].work == [])
              then tenants == old(tenants) - {tenant} && schedule == Without(old(schedule), tenant)
              else tenants == old(tenants) && schedule == old(schedule)
    {
      if tenant in tenants && tenants[tenant].work == [] {
        tenants := tenants - {tenant};
        schedule := Without(schedule, tenant);
      }
    }

    /** The first tenant, in key order, that holds the work, and where. */
    method Find(key: string) returns (tenant: string, at: nat)
      requires exists t: string, i: nat :: Holds(Value(), key, t, i)
      ensures Holds(Value(), key, tenant, at)
    {
      hide Position, SortedNames, Increasing;
      ghost var where := Where(Value(), key);
      var ids := SortedNames(tenants.Keys);
      var found := 0;
      var position := Position(tenants[ids[0]].work, key);
      while position.None?
        invariant 0 <= found < |ids|
        invariant position == Position(tenants[ids[found]].work, key)
        invariant where.0 in ids[found..]
        decreases |ids| - found
      {
        assert ids[found..] == [ids[found]] + ids[found + 1..];
        assert where.0 != ids[found];
        found := found + 1;
        position := Position(tenants[ids[found]].work, key);
      }
      return ids[found], position.value;
    }

    method Cancel(key: string) returns (r: Option<Work>)
      requires Valid()
      modifies this
      ensures Valid()
      ensures (Value(), r) == FairQueue.Cancel(old(Value()), key)
    {
      hide Items, Inv, Without;
      ghost var q := Value();
      CancelKeepsInv(q, key);
      QueuedKeyHeld(q, key);
      if key !in queuedKeys {
        return None;
      }
      ghost var where := Where(q, key);
      var tenant, at := Find(key);
      assert Holds(q, key, tenant, at);
      UniquelyHeld(q, key, where.0, where.1, tenant, at);
      RoomForTenants(q);
      var work := tenants[tenant].work;
      r := Some(work[at]);
      assert KeysOf([work[at]]) == {key};
      tenants := tenants[tenant := tenants[tenant].(work := work[..at] + work[at + 1..])];
      queuedKeys := queuedKeys - {key};
      total := total - 1;
      RemoveEmptyTenant(tenant);
      assert tenants == Replace(q.tenants, tenant, work[..at] + work[at + 1..]);
    }

    /** Takes the expired part of a queue out of the key set and the counter. */
    method Sift(all: seq<Work>, now: nat) returns (retained: seq<Work>, expired: seq<Work>)
      requires |Dead(all, now)| <= total
      modifies this`queuedKeys, this`total
      ensures retained == Live(all, now) && expired == Dead(all, now)
      ensures queuedKeys == old(queuedKeys) - KeysOf(expired)
      ensures total == old(total) - |expired|
    {
      hide Live, Dead, KeysOf;
      NothingLeft(now);
      var work := all;
      retained, expired := [], [];
      while work != []
        invariant retained + Live(work, now) == Live(all, now)
        invariant expired + Dead(work, now) == Dead(all, now)
        invariant queuedKeys == old(queuedKeys) - KeysOf(expired)
        invariant total == old(total) - |expired|
        decreases |work|
      {
        SiftStep(retained, expired, work, now);
        var first := work[0];
        work := work[1..];
        if first.deadline <= now {
          queuedKeys := queuedKeys - {first.key};
          total := total - 1;
          KeysOfAppend(expired, first);
          expired := expired + [first];
        } else {
          retained := retained + [first];
        }
      }
      assert retained + [] == retained && expired + [] == expired;
    }

    /** Moves the expired work of one tenant out of its queue. */
    method ExpireTenant(tenant: string, now: nat) returns (expired: seq<Work>)
      requires Valid() && tenant in tenants
      modifies this
      ensures Valid()
      ensures Value() == FairQueue.ExpireTenant(old(Value()), tenant, now)
      ensures expired == Dead(old(tenants[tenant].work), now)
    {
      hide Items, Inv, Without, Live, Dead, KeysOf;
      ghost var q := Value();
      var work := tenants[tenant].work;
      LiveDeadSplit(work, now);
      ShrinkKeepsInv(q, tenant, Live(work, now), Dead(work, now));
      var retained;
      retained, expired := Sift(work, now);
      tenants := tenants[tenant := tenants[tenant].(work := retained)];
      RemoveEmptyTenant(tenant);
      assert tenants == Replace(q.tenants, tenant, retained);
    }

    method Expire(now: nat) returns (expired: seq<Work>)
      requires Valid()
      modifies this
      ensures Valid()
      ensures (Value(), expired) == FairQueue.Expire(old(Value()), now)
    {
      hide Items, Inv, Live, Dead, FairQueue.ExpireTenant, SortedNames, Increasing;
      var ids := SortedNames(tenants.Keys);
      ghost var goal := ExpireTenants(Value(), ids, now);
      expired := [];
      var k := 0;
      assert ids[0..] == ids;
      while k < |ids|
        invariant 0 <= k <= |ids|
        invariant Valid()
        invariant ExpireTenants(Value(), ids[k..], now).0 == goal.0
        invariant expired + ExpireTenants(Value(), ids[k..], now).1 == goal.1
        invariant forall j | k <= j < |ids| :: ids[j] in tenants
      {
        assert ids[k..] == [ids[k]] + ids[k + 1..];
        ghost var before := Value();
        var gone := ExpireTenant(ids[k], now);
        ExpireKeepsOthers(before, ids[k], now);
        expired := expired + gone;
        k := k + 1;
      }
      assert ids[k..] == [] && expired + [] == expired;
    }

    /** Looks for the next tenant in rotation that can afford an item. What `Expire` returns is dropped. */
    method Dequeue(now: nat) returns (r: Option<Work>)
      requires Valid()
      modifies this
      ensures Valid()
      ensures (Value(), r) == FairQueue.Dequeue(old(Value()), now)
    {
      hide Items, Inv, Visit, FairQueue.Expire;
      ExpireEffect(Value(), now);
      var _ := Expire(now);
      var attempts := |schedule| * FAIRNESS_QUANTUM;
      ghost var goal := Serve(Value(), attempts);
      for n := 0 to attempts
        invariant Valid()
        invariant Serve(Value(), attempts - n) == goal
      {
        if schedule == [] {
          return None;
        }
        VisitKeepsInv(Value());
        r := Turn();
        if r.Some? {
          return r;
        }
      }
      return None;
    }

    /** One pass of the dequeue loop. The cap at twice the quantum and the branch that would put a tenant back at
        the front are in the code; neither ever takes effect. */
    method Turn() returns (r: Option<Work>)
      requires Valid() && schedule != []
      modifies this
      ensures Valid()
      ensures old(Waiting(tenants, schedule[0]))
      ensures (Value(), r) == old(Visit(Value()))
    {
      hide Items, Inv, Without;
      ghost var q := Value();
      HeadFacts(q);
      VisitKeepsInv(q);
      RoomForTenants(q);
      var tenant := schedule[0];
      schedule := schedule[1..];
      HeadOnce(q);
      var queue := tenants[tenant];
      queue := queue.(deficit := Min(queue.deficit + queue.weight, FAIRNESS_QUANTUM * 2));
      tenants := tenants[tenant := queue];
      if queue.deficit < FAIRNESS_QUANTUM {
        schedule := schedule + [tenant];
        return None;
      }
      var work := queue.work[0];
      assert KeysOf([work]) == {work.key};
      queue := queue.(deficit := queue.deficit - FAIRNESS_QUANTUM, work := queue.work[1..]);
      tenants := tenants[tenant := queue];
      queuedKeys := queuedKeys - {work.key};
      total := total - 1;
      if queue.work == [] {
        tenants := tenants - {tenant};
      } else {
        schedule := if queue.deficit >= FAIRNESS_QUANTUM then [tenant] + schedule else schedule + [tenant];
      }
      assert tenants == Replace(Charge(q, queue.deficit).tenants, tenant, queue.work);
      return Some(work);
    }
  }
}
