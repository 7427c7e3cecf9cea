/** The bounded fair queue of `placement.rs` as a value: a deficit-round-robin scheduler over a tenant map,
    a rotating schedule, a set of idempotency keys and a counter. The imperative queue is in
    `BoundedFairQueue.dfy`; what holds over whole runs is in `FairQueueRuns.dfy`. */
module FairQueue {
  import opened Orders
  import opened Outcomes

  const FAIRNESS_QUANTUM: nat := 100

  datatype Limits = Limits(global: nat, perTenant: nat, maximumTenants: nat) {
    predicate Valid() {
      && 0 < global <= 1_000_000
      && 0 < perTenant <= global
      && 0 < maximumTenants <= global
    }
  }

  datatype Work = Work(key: string, tenant: string, workspace: string, sandbox: string, deadline: nat) {
    predicate Valid(now: nat) {
      && 0 < |key| <= 128
      && (forall c | c in key :: 'a' <= c <= 'z' || 'A' <= c <= 'Z' || '0' <= c <= '9' || c == '-' || c == '_')
      && deadline > now
    }
  }

  datatype TenantQueue = TenantQueue(weight: nat, deficit: nat, work: seq<Work>)

  datatype Rejection =
    | InvalidConfiguration | InvalidRequest | Duplicate | GlobalCapacity
    | TenantCapacity | TenantCardinality | InvalidWeight

  datatype Queue = Queue(
    limits: Limits,
    total: nat,
    keys: set<string>,
    tenants: map<string, TenantQueue>,
    schedule: seq<string>)

  function New(limits: Limits): Queue {
    Queue(limits, 0, {}, map[], [])
  }

  // ---------- Queued items and the representation invariant ----------

  ghost function AnyKey(tenants: map<string, TenantQueue>): (t: string)
    requires tenants != map[]
    ensures t in tenants
  {
    var t :| t in tenants; t
  }

  /** Everything waiting, over all tenants. Its size is the sum of the queue lengths. */
  ghost function Items(tenants: map<string, TenantQueue>): multiset<Work>
    decreases |tenants|
  {
    if tenants == map[] then multiset{}
    else
      var t := AnyKey(tenants);
      Smaller(tenants, t);
      multiset(tenants[t].work) + Items(tenants - {t})
  }

  lemma Smaller(tenants: map<string, TenantQueue>, t: string)
    requires t in tenants
    ensures |tenants - {t}| == |tenants| - 1
  {
    assert (tenants - {t}).Keys == tenants.Keys - {t};
    assert |tenants.Keys| == |tenants|;
  }

  lemma {:induction false} ItemsSplit(tenants: map<string, TenantQueue>, t: string)
    requires t in tenants
    ensures Items(tenants) == multiset(tenants[t].work) + Items(tenants - {t})
    decreases |tenants|
  {
    var u := AnyKey(tenants);
    if u != t {
      Smaller(tenants, u);
      ItemsSplit(tenants - {u}, t);
      Smaller(tenants, t);
      ItemsSplit(tenants - {t}, u);
      assert tenants - {u} - {t} == tenants - {t} - {u};
    }
  }

  ghost predicate KeysAgree(keys: set<string>, items: multiset<Work>) {
    && (forall w | w in items :: w.key in keys && items[w] == 1)
    && (forall k | k in keys :: exists w :: w in items && w.key == k)
    && (forall w, v | w in items && v in items && w.key == v.key :: w == v)
  }

  predicate TenantOk(limits: Limits, t: string, queue: TenantQueue) {
    && 1 <= queue.weight <= 100
    && queue.deficit < FAIRNESS_QUANTUM
    && |queue.work| <= limits.perTenant
    && (forall w | w in queue.work :: w.tenant == t)
  }

  predicate TenantsOk(limits: Limits, tenants: map<string, TenantQueue>) {
    && (forall t | t in tenants :: TenantOk(limits, t, tenants[t]))
    && |tenants| <= limits.maximumTenants
  }

  predicate Waiting(tenants: map<string, TenantQueue>, t: string) {
    t in tenants && tenants[t].work != []
  }

  /** The schedule lists each tenant with work exactly once. */
  ghost predicate ScheduleOk(tenants: map<string, TenantQueue>, schedule: seq<string>) {
    && NoDuplicates(schedule)
    && (forall t :: t in schedule <==> Waiting(tenants, t))
  }

  /** The counter and the key set describe the queued items. */
  ghost predicate CountsOk(limits: Limits, items: multiset<Work>, total: nat, keys: set<string>) {
    && total == |items| <= limits.global
    && KeysAgree(keys, items)
  }

  /** The four parts agree: the counter, the key set, the tenant map and the schedule. */
  ghost predicate Inv(q: Queue) {
    && q.limits.Valid()
    && TenantsOk(q.limits, q.tenants)
    && ScheduleOk(q.tenants, q.schedule)
    && CountsOk(q.limits, Items(q.tenants), q.total, q.keys)
  }

  // ---------- Operations ----------

  function SetTenantWeight(q: Queue, t: string, weight: nat): (Queue, Result<(), Rejection>) {
    if !(1 <= weight <= 100) then (q, Err(InvalidWeight))
    else if t in q.tenants then (q.(tenants := q.tenants[t := q.tenants[t].(weight := weight)]), Ok(()))
    else if |q.tenants| >= q.limits.maximumTenants then (q, Err(TenantCardinality))
    else (q.(tenants := q.tenants[t := TenantQueue(weight, 0, [])]), Ok(()))
  }

  function Enqueue(q: Queue, w: Work, now: nat): (Queue, Result<(), Rejection>) {
    if !w.Valid(now) then (q, Err(InvalidRequest))
    else if w.key in q.keys then (q, Err(Duplicate))
    else if q.total >= q.limits.global then (q, Err(GlobalCapacity))
    else
      var (r, created) := if w.tenant in q.tenants then (q, Ok(())) else SetTenantWeight(q, w.tenant, 1);
      if created.Err? || w.tenant !in r.tenants then (q, created)
      else
        if |r.tenants[w.tenant].work| >= q.limits.perTenant then (q, Err(TenantCapacity))
        else (Append(r, w), Ok(()))
  }

  function Append(q: Queue, w: Work): Queue
    requires w.tenant in q.tenants
  {
    var queue := q.tenants[w.tenant];
    q.(total := q.total + 1,
       keys := q.keys + {w.key},
       tenants := q.tenants[w.tenant := queue.(work := queue.work + [w])],
       schedule := if queue.work == [] then q.schedule + [w.tenant] else q.schedule)
  }

  function KeysOf(work: seq<Work>): set<string> {
    set w | w in work :: w.key
  }

  function Without(schedule: seq<string>, t: string): seq<string> {
    if schedule == [] then []
    else (if schedule[0] == t then [] else [schedule[0]]) + Without(schedule[1..], t)
  }

  function Replace(tenants: map<string, TenantQueue>, t: string, work: seq<Work>): map<string, TenantQueue>
    requires t in tenants
  {
    if work == [] then tenants - {t} else tenants[t := tenants[t].(work := work)]
  }

  /** Takes `gone` out of tenant `t`'s queue, leaving `kept`; a tenant left with nothing is forgotten
      together with its weight and deficit. */
  function Shrink(q: Queue, t: string, kept: seq<Work>, gone: seq<Work>): Queue
    requires t in q.tenants
  {
    q.(total := if |gone| <= q.total then q.total - |gone| else 0,
       keys := q.keys - KeysOf(gone),
       tenants := Replace(q.tenants, t, kept),
       schedule := if kept == [] then Without(q.schedule, t) else q.schedule)
  }

  ghost predicate Holds(q: Queue, key: string, t: string, i: nat) {
    t in q.tenants && i < |q.tenants[t].work| && q.tenants[t].work[i].key == key
  }

  ghost function Where(q: Queue, key: string): (p: (string, nat))
    requires exists t: string, i: nat :: Holds(q, key, t, i)
    ensures Holds(q, key, p.0, p.1)
  {
    var t: string, i: nat :| Holds(q, key, t, i); (t, i)
  }

  /** Removes the work queued under `key`. */
  ghost function Cancel(q: Queue, key: string): (Queue, Option<Work>) {
    if exists t: string, i: nat :: Holds(q, key, t, i) then
      var (t, i) := Where(q, key);
      var work := q.tenants[t].work;
      (Shrink(q, t, work[..i] + work[i + 1..], [work[i]]), Some(work[i]))
    else (q, None)
  }

  function Live(work: seq<Work>, now: nat): seq<Work> {
    if work == [] then []
    else (if work[0].deadline > now then [work[0]] else []) + Live(work[1..], now)
  }

  function Dead(work: seq<Work>, now: nat): seq<Work> {
    if work == [] then []
    else (if work[0].deadline > now then [] else [work[0]]) + Dead(work[1..], now)
  }

  function ExpireTenant(q: Queue, t: string, now: nat): Queue
    requires t in q.tenants
  {
    Shrink(q, t, Live(q.tenants[t].work, now), Dead(q.tenants[t].work, now))
  }

  /** Visits the tenants `ids` in turn; returns what expired, in visiting order. */
  function ExpireTenants(q: Queue, ids: seq<string>, now: nat): (Queue, seq<Work>)
    decreases |ids|
  {
    if ids == [] then (q, [])
    else if ids[0] !in q.tenants then ExpireTenants(q, ids[1..], now)
    else
      var (r, rest) := ExpireTenants(ExpireTenant(q, ids[0], now), ids[1..], now);
      (r, Dead(q.tenants[ids[0]].work, now) + rest)
  }

  function Expire(q: Queue, now: nat): (Queue, seq<Work>) {
    ExpireTenants(q, SortedNames(q.tenants.Keys), now)
  }

  /** One turn of the tenant at the head of the schedule: it earns its weight, and is served when that
      brings its deficit to the quantum. */
  function Visit(q: Queue): (Queue, Option<Work>)
    requires q.schedule != [] && Waiting(q.tenants, q.schedule[0])
  {
    var t := q.schedule[0];
    var queue := q.tenants[t];
    var credit := queue.deficit + queue.weight;
    if credit < FAIRNESS_QUANTUM then (Charge(q, credit), None)
    else
      (Shrink(Charge(q, credit - FAIRNESS_QUANTUM), t, queue.work[1..], [queue.work[0]]), Some(queue.work[0]))
  }

  ghost function Serve(q: Queue, attempts: nat): (Queue, Option<Work>)
    requires Inv(q)
    decreases attempts
  {
    if attempts == 0 || q.schedule == [] then (q, None)
    else
      VisitKeepsInv(q);
      var (r, served) := Visit(q);
      if served.Some? then (r, served) else Serve(r, attempts - 1)
  }

  ghost function Dequeue(q: Queue, now: nat): (Queue, Option<Work>)
    requires Inv(q)
  {
    ExpireEffect(q, now);
    var r := Expire(q, now).0;
    Serve(r, |r.schedule| * FAIRNESS_QUANTUM)
  }

  // ---------- Every operation keeps the invariant ----------

  lemma {:induction false} WithoutFacts(s: seq<string>, t: string)
    requires NoDuplicates(s)
    ensures NoDuplicates(Without(s, t))
    ensures forall u :: u in Without(s, t) <==> u in s && u != t
    ensures t !in s ==> Without(s, t) == s
  {
    if s != [] {
      WithoutFacts(s[1..], t);
      assert s == [s[0]] + s[1..];
      assert s[0] !in s[1..];
      var rest := Without(s[1..], t);
      assert s[0] !in rest;
      assert NoDuplicates([s[0]] + rest);
    }
  }

  lemma {:induction false} WithoutLast(s: seq<string>, t: string)
    requires t !in s
    ensures Without(s + [t], t) == s
  {
    if s == [] {
      assert Without([t], t) == [] + Without([t][1..], t);
    } else {
      assert (s + [t])[1..] == s[1..] + [t];
      WithoutLast(s[1..], t);
      assert s == [s[0]] + s[1..];
    }
  }

  lemma RemoveKeys(limits: Limits, items: multiset<Work>, kept: multiset<Work>, gone: seq<Work>, total: nat, keys: set<string>)
    requires CountsOk(limits, items, total, keys) && items == kept + multiset(gone)
    ensures |gone| <= total
    ensures CountsOk(limits, kept, total - |gone|, keys - KeysOf(gone))
  {
    assert |items| == |kept| + |multiset(gone)|;
    forall w | w in kept ensures w.key in keys - KeysOf(gone) && kept[w] == 1 {
      assert w in items;
      forall v | v in gone ensures v.key != w.key {
        assert v in multiset(gone) && v in items;
      }
    }
    forall k | k in keys - KeysOf(gone) ensures exists w :: w in kept && w.key == k {
      var w :| w in items && w.key == k;
      assert w in kept || w in multiset(gone);
    }
    forall w, v | w in kept && v in kept && w.key == v.key ensures w == v {
      assert w in items && v in items;
    }
  }

  lemma ReplaceItems(tenants: map<string, TenantQueue>, t: string, kept: seq<Work>, gone: seq<Work>)
    requires t in tenants && multiset(tenants[t].work) == multiset(kept) + multiset(gone)
    ensures Items(tenants) == Items(Replace(tenants, t, kept)) + multiset(gone)
    ensures |Replace(tenants, t, kept)| <= |tenants|
  {
    hide Items;
    ItemsSplit(tenants, t);
    Smaller(tenants, t);
    var r := Replace(tenants, t, kept);
    if kept == [] {
      assert multiset(kept) == multiset{};
    } else {
      ItemsSplit(r, t);
      assert r - {t} == tenants - {t};
      assert r.Keys == tenants.Keys;
    }
  }

  lemma ReplaceTenantsOk(limits: Limits, tenants: map<string, TenantQueue>, t: string, kept: seq<Work>, gone: seq<Work>)
    requires TenantsOk(limits, tenants)
    requires t in tenants && multiset(tenants[t].work) == multiset(kept) + multiset(gone)
    ensures TenantsOk(limits, Replace(tenants, t, kept))
  {
    ReplaceItems(tenants, t, kept, gone);
    assert |multiset(tenants[t].work)| == |multiset(kept)| + |multiset(gone)|;
    forall w | w in kept ensures w.tenant == t {
      assert w in multiset(kept) && w in multiset(tenants[t].work) && w in tenants[t].work;
    }
  }

  lemma ReplaceScheduleOk(tenants: map<string, TenantQueue>, schedule: seq<string>, t: string, kept: seq<Work>)
    requires ScheduleOk(tenants, schedule)
    requires t in tenants && (kept != [] ==> tenants[t].work != [])
    ensures ScheduleOk(Replace(tenants, t, kept), if kept == [] then Without(schedule, t) else schedule)
  {
    WithoutFacts(schedule, t);
    forall u ensures Waiting(Replace(tenants, t, kept), u) <==> Waiting(tenants, u) && (u == t ==> kept != []) {
    }
  }

  /** Cancelling, expiring and serving all go through `Shrink`. */
  lemma ShrinkKeepsInv(q: Queue, t: string, kept: seq<Work>, gone: seq<Work>)
    requires Inv(q) && t in q.tenants
    requires multiset(q.tenants[t].work) == multiset(kept) + multiset(gone)
    ensures Inv(Shrink(q, t, kept, gone))
    ensures Items(q.tenants) == Items(Shrink(q, t, kept, gone).tenants) + multiset(gone)
    ensures |gone| <= q.total
  {
    hide Items;
    ReplaceItems(q.tenants, t, kept, gone);
    ReplaceTenantsOk(q.limits, q.tenants, t, kept, gone);
    if kept != [] { assert kept[0] in multiset(q.tenants[t].work); }
    ReplaceScheduleOk(q.tenants, q.schedule, t, kept);
    RemoveKeys(q.limits, Items(q.tenants), Items(Replace(q.tenants, t, kept)), gone, q.total, q.keys);
  }

  /** Changing one tenant's weight or deficit touches no queued item. */
  lemma RetuneItems(tenants: map<string, TenantQueue>, t: string, queue: TenantQueue)
    requires t in tenants && queue.work == tenants[t].work
    ensures Items(tenants[t := queue]) == Items(tenants)
    ensures |tenants[t := queue]| == |tenants|
  {
    ItemsSplit(tenants, t);
    ItemsSplit(tenants[t := queue], t);
    assert tenants[t := queue] - {t} == tenants - {t};
    assert tenants[t := queue].Keys == tenants.Keys;
  }

  lemma AddTenantItems(tenants: map<string, TenantQueue>, t: string, queue: TenantQueue)
    requires t !in tenants
    ensures Items(tenants[t := queue]) == Items(tenants) + multiset(queue.work)
    ensures |tenants[t := queue]| == |tenants| + 1
  {
    ItemsSplit(tenants[t := queue], t);
    assert tenants[t := queue] - {t} == tenants;
    Smaller(tenants[t := queue], t);
  }

  lemma RetuneKeepsInv(q: Queue, t: string, weight: nat)
    requires Inv(q) && t in q.tenants && 1 <= weight <= 100
    ensures var r := q.(tenants := q.tenants[t := q.tenants[t].(weight := weight)]);
            Inv(r) && Items(r.tenants) == Items(q.tenants)
  {
    hide Items, CountsOk;
    RetuneItems(q.tenants, t, q.tenants[t].(weight := weight));
  }

  lemma NewTenantKeepsInv(q: Queue, t: string, weight: nat)
    requires Inv(q) && t !in q.tenants && |q.tenants| < q.limits.maximumTenants && 1 <= weight <= 100
    ensures var r := q.(tenants := q.tenants[t := TenantQueue(weight, 0, [])]);
            Inv(r) && Items(r.tenants) == Items(q.tenants)
  {
    hide Items, CountsOk;
    var queue := TenantQueue(weight, 0, []);
    AddTenantItems(q.tenants, t, queue);
    assert multiset(queue.work) == multiset{};
    assert Items(q.tenants[t := queue]) == Items(q.tenants);
  }

  lemma SetTenantWeightKeepsInv(q: Queue, t: string, weight: nat)
    requires Inv(q)
    ensures Inv(SetTenantWeight(q, t, weight).0)
    ensures Items(SetTenantWeight(q, t, weight).0.tenants) == Items(q.tenants)
  {
    hide Items, Inv;
    if 1 <= weight <= 100 {
      if t in q.tenants {
        RetuneKeepsInv(q, t, weight);
      } else if |q.tenants| < q.limits.maximumTenants {
        NewTenantKeepsInv(q, t, weight);
      }
    }
  }

  lemma AppendItems(tenants: map<string, TenantQueue>, w: Work)
    requires w.tenant in tenants
    ensures var r := tenants[w.tenant := tenants[w.tenant].(work := tenants[w.tenant].work + [w])];
            Items(r) == Items(tenants) + multiset{w} && |r| == |tenants|
  {
    var r := tenants[w.tenant := tenants[w.tenant].(work := tenants[w.tenant].work + [w])];
    ItemsSplit(tenants, w.tenant);
    ItemsSplit(r, w.tenant);
    assert r - {w.tenant} == tenants - {w.tenant};
    assert r.Keys == tenants.Keys;
  }

  lemma AppendKeepsInv(q: Queue, w: Work)
    requires Inv(q) && w.tenant in q.tenants && w.key !in q.keys
    requires q.total < q.limits.global && |q.tenants[w.tenant].work| < q.limits.perTenant
    ensures Inv(Append(q, w)) && Items(Append(q, w).tenants) == Items(q.tenants) + multiset{w}
  {
    hide Items;
    AppendItems(q.tenants, w);
    AddKey(q.limits, Items(q.tenants), q.total, q.keys, w);
    var r := Append(q, w);
    assert ScheduleOk(r.tenants, r.schedule) by {
      assert q.tenants[w.tenant].work == [] ==> w.tenant !in q.schedule;
      forall t ensures Waiting(r.tenants, t) <==> t == w.tenant || Waiting(q.tenants, t) { }
    }
  }

  lemma EnqueueKeepsInv(q: Queue, w: Work, now: nat)
    requires Inv(q)
    ensures var (r, outcome) := Enqueue(q, w, now);
            && Inv(r)
            && (outcome.Err? ==> r == q)
            && (outcome.Ok? ==> Items(r.tenants) == Items(q.tenants) + multiset{w})
  {
    hide Items;
    if Enqueue(q, w, now).1.Ok? {
      SetTenantWeightKeepsInv(q, w.tenant, 1);
      AppendKeepsInv(if w.tenant in q.tenants then q else SetTenantWeight(q, w.tenant, 1).0, w);
    }
  }

  lemma AddKey(limits: Limits, items: multiset<Work>, total: nat, keys: set<string>, w: Work)
    requires CountsOk(limits, items, total, keys) && w.key !in keys && total < limits.global
    ensures CountsOk(limits, items + multiset{w}, total + 1, keys + {w.key})
  {
    assert w !in items;
    forall k | k in keys + {w.key} ensures exists v :: v in items + multiset{w} && v.key == k {
      if k == w.key {
        assert w in items + multiset{w};
      } else {
        var v :| v in items && v.key == k;
        assert v in items + multiset{w};
      }
    }
  }

  lemma QueuedKeyHeld(q: Queue, key: string)
    requires Inv(q)
    ensures key in q.keys <==> exists t: string, i: nat :: Holds(q, key, t, i)
  {
    if key in q.keys {
      var w :| w in Items(q.tenants) && w.key == key;
      var t, i := Locate(q.tenants, w);
      assert Holds(q, key, t, i);
    }
    if t: string, i: nat :| Holds(q, key, t, i) {
      ItemsSplit(q.tenants, t);
      assert q.tenants[t].work[i] in multiset(q.tenants[t].work);
    }
  }

  lemma CancelKeepsInv(q: Queue, key: string)
    requires Inv(q)
    ensures var (r, removed) := Cancel(q, key);
            && Inv(r)
            && (removed.None? <==> key !in q.keys)
            && (removed.None? ==> r == q)
            && (removed.Some? ==> removed.value.key == key && Items(q.tenants) == Items(r.tenants) + multiset{removed.value})
  {
    hide Items, Inv, Shrink;
    QueuedKeyHeld(q, key);
    if key in q.keys {
      var (t, i) := Where(q, key);
      var work := q.tenants[t].work;
      assert work == work[..i] + [work[i]] + work[i + 1..];
      ShrinkKeepsInv(q, t, work[..i] + work[i + 1..], [work[i]]);
    }
  }

  lemma {:induction false} Locate(tenants: map<string, TenantQueue>, w: Work) returns (t: string, i: nat)
    requires w in Items(tenants)
    ensures t in tenants && i < |tenants[t].work| && tenants[t].work[i] == w
    decreases |tenants|
  {
    var u := AnyKey(tenants);
    if w in tenants[u].work {
      t := u;
      i :| 0 <= i < |tenants[u].work| && tenants[u].work[i] == w;
    } else {
      Smaller(tenants, u);
      t, i := Locate(tenants - {u}, w);
    }
  }

  lemma {:induction false} LiveDeadSplit(work: seq<Work>, now: nat)
    ensures multiset(work) == multiset(Live(work, now)) + multiset(Dead(work, now))
    ensures forall w | w in Live(work, now) :: w in work && w.deadline > now
    ensures forall w | w in Dead(work, now) :: w in work && w.deadline <= now
    ensures forall w | w in work && w.deadline > now :: w in Live(work, now)
  {
    if work != [] {
      LiveDeadSplit(work[1..], now);
      assert work == [work[0]] + work[1..];
    }
  }

  ghost predicate SameButExpired(q: Queue, r: Queue, now: nat) {
    && r.limits == q.limits
    && (forall t | t in r.tenants ::
          && t in q.tenants
          && r.tenants[t] == q.tenants[t].(work := Live(q.tenants[t].work, now))
          && r.tenants[t].work != [])
    && (forall t | t in q.tenants && Live(q.tenants[t].work, now) != [] :: t in r.tenants)
  }

  /** What a pass over `ids` makes of tenant `t`. */
  function Expired(tenants: map<string, TenantQueue>, t: string, ids: seq<string>, now: nat): TenantQueue
    requires t in tenants
  {
    if t in ids then tenants[t].(work := Live(tenants[t].work, now)) else tenants[t]
  }

  ghost predicate ExpiredFrom(q: Queue, r: Queue, ids: seq<string>, now: nat) {
    && r.limits == q.limits
    && (forall t | t in r.tenants :: t in q.tenants && r.tenants[t] == Expired(q.tenants, t, ids, now))
    && (forall t | t in r.tenants && t in ids :: r.tenants[t].work != [])
    && (forall t | t in q.tenants && (t in ids ==> Live(q.tenants[t].work, now) != []) :: t in r.tenants)
  }

  lemma {:induction false} ExpireTenantsMap(q: Queue, ids: seq<string>, now: nat)
    requires NoDuplicates(ids) && forall t | t in ids :: t in q.tenants
    ensures ExpiredFrom(q, ExpireTenants(q, ids, now).0, ids, now)
    decreases |ids|
  {
    hide Live, Dead, Without, KeysOf;
    if ids != [] {
      var t := ids[0];
      assert ids == [t] + ids[1..] && t !in ids[1..];
      ExpireTenantsMap(ExpireTenant(q, t, now), ids[1..], now);
    }
  }

  lemma {:induction false} ExpireTenantsKeepsInv(q: Queue, ids: seq<string>, now: nat)
    requires Inv(q)
    ensures var (r, gone) := ExpireTenants(q, ids, now);
            && Inv(r)
            && Items(q.tenants) == Items(r.tenants) + multiset(gone)
            && (forall w | w in gone :: w.deadline <= now)
    decreases |ids|
  {
    hide Items, Inv, Live, Dead;
    if ids != [] {
      if ids[0] in q.tenants {
        var work := q.tenants[ids[0]].work;
        LiveDeadSplit(work, now);
        ShrinkKeepsInv(q, ids[0], Live(work, now), Dead(work, now));
        ExpireTenantsKeepsInv(ExpireTenant(q, ids[0], now), ids[1..], now);
      } else {
        ExpireTenantsKeepsInv(q, ids[1..], now);
      }
    }
  }

  lemma ExpireEffect(q: Queue, now: nat)
    requires Inv(q)
    ensures var (r, gone) := Expire(q, now);
            && Inv(r)
            && SameButExpired(q, r, now)
            && Items(q.tenants) == Items(r.tenants) + multiset(gone)
            && (forall w | w in gone :: w.deadline <= now)
            && (forall w | w in Items(r.tenants) :: w.deadline > now)
  {
    hide Items, Inv, Live, ExpireTenants;
    var ids := SortedNames(q.tenants.Keys);
    ExpireTenantsKeepsInv(q, ids, now);
    ExpireTenantsMap(q, ids, now);
    var r := Expire(q, now).0;
    forall w | w in Items(r.tenants) ensures w.deadline > now {
      var t, i := Locate(r.tenants, w);
      LiveDeadSplit(q.tenants[t].work, now);
    }
  }

  /** The head of the schedule moves to the back with a new deficit. */
  function Charge(q: Queue, deficit: nat): Queue
    requires q.schedule != [] && q.schedule[0] in q.tenants
  {
    var t := q.schedule[0];
    q.(schedule := q.schedule[1..] + [t], tenants := q.tenants[t := q.tenants[t].(deficit := deficit)])
  }

  lemma ChargeKeepsInv(q: Queue, deficit: nat)
    requires Inv(q) && q.schedule != [] && deficit < FAIRNESS_QUANTUM
    ensures Waiting(q.tenants, q.schedule[0])
    ensures Inv(Charge(q, deficit)) && Items(Charge(q, deficit).tenants) == Items(q.tenants)
  {
    hide Items, CountsOk;
    var t := q.schedule[0];
    assert t in q.schedule;
    RetuneItems(q.tenants, t, q.tenants[t].(deficit := deficit));
    var r := Charge(q, deficit);
    assert ScheduleOk(r.tenants, r.schedule) by {
      assert q.schedule == [t] + q.schedule[1..];
      forall u ensures Waiting(r.tenants, u) <==> Waiting(q.tenants, u) { }
      assert t !in q.schedule[1..];
    }
  }

  lemma HeadFacts(q: Queue)
    requires Inv(q) && q.schedule != []
    ensures Waiting(q.tenants, q.schedule[0]) && TenantOk(q.limits, q.schedule[0], q.tenants[q.schedule[0]])
  {
    assert q.schedule[0] in q.schedule;
  }

  lemma VisitKeepsInv(q: Queue)
    requires Inv(q) && q.schedule != []
    ensures Waiting(q.tenants, q.schedule[0])
    ensures var (r, served) := Visit(q);
            && Inv(r)
            && (served.None? ==> Items(r.tenants) == Items(q.tenants))
            && (served.Some? ==> Items(q.tenants) == Items(r.tenants) + multiset{served.value})
  {
    hide Items, Inv, Shrink;
    HeadFacts(q);
    var queue := q.tenants[q.schedule[0]];
    var credit := queue.deficit + queue.weight;
    if credit < FAIRNESS_QUANTUM {
      ChargeKeepsInv(q, credit);
    } else {
      ChargeKeepsInv(q, credit - FAIRNESS_QUANTUM);
      assert queue.work == [queue.work[0]] + queue.work[1..];
      ShrinkKeepsInv(Charge(q, credit - FAIRNESS_QUANTUM), q.schedule[0], queue.work[1..], [queue.work[0]]);
    }
  }
}
