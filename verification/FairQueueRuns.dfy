/** What the fair queue guarantees over whole runs: the iteration budget of a dequeue suffices, no backlogged
    tenant starves, service follows the weights, and no accepted item is lost, duplicated or reordered. */
module FairQueueRuns {
  import opened Orders
  import opened Outcomes
  import opened Numbers
  import opened FairQueue

  // ---------- Positions in the schedule ----------

  function Pos(s: seq<string>, t: string): (i: nat)
    requires t in s
    ensures i < |s| && s[i] == t && t !in s[..i]
  {
    if s[0] == t then 0
    else
      assert s == [s[0]] + s[1..];
      var i := 1 + Pos(s[1..], t);
      assert s[..i] == [s[0]] + s[1..][..i - 1];
      i
  }

  lemma PosIs(s: seq<string>, t: string, i: nat)
    requires i < |s| && s[i] == t && NoDuplicates(s)
    ensures Pos(s, t) == i
  {
  }

  lemma PosCons(head: string, rest: seq<string>, t: string)
    requires t == head || t in rest
    ensures t in [head] + rest
    ensures Pos([head] + rest, t) == if t == head then 0 else 1 + Pos(rest, t)
  {
    assert ([head] + rest)[1..] == rest;
  }

  /** Dropping one tenant moves nobody back and swaps nobody. */
  lemma {:induction false} WithoutPositions(s: seq<string>, x: string, a: string, b: string)
    requires a in s && b in s && a != x && b != x
    ensures a in Without(s, x) && b in Without(s, x)
    ensures Pos(Without(s, x), a) <= Pos(s, a)
    ensures Pos(Without(s, x), a) < Pos(Without(s, x), b) <==> Pos(s, a) < Pos(s, b)
  {
    hide Pos;
    assert s == [s[0]] + s[1..];
    var rest := Without(s[1..], x);
    PosCons(s[0], s[1..], a);
    PosCons(s[0], s[1..], b);
    var a', b' := if s[0] == a then b else a, if s[0] == b then a else b;
    if a' in s[1..] && b' in s[1..] { WithoutPositions(s[1..], x, a', b'); }
    if s[0] == x {
      assert Without(s, x) == rest;
    } else {
      assert Without(s, x) == [s[0]] + rest;
      PosCons(s[0], rest, a);
      PosCons(s[0], rest, b);
    }
  }

  lemma {:induction false} DistinctWithin(s: seq<string>, universe: set<string>)
    requires NoDuplicates(s) && forall t | t in s :: t in universe
    ensures |s| <= |universe|
  {
    if s != [] {
      assert s == [s[0]] + s[1..];
      DistinctWithin(s[1..], universe - {s[0]});
    }
  }

  lemma ScheduleShort(q: Queue)
    requires Inv(q)
    ensures |q.schedule| <= q.limits.maximumTenants
  {
    DistinctWithin(q.schedule, q.tenants.Keys);
  }

  // ---------- The potential of a waiting tenant ----------

  /** How many turns can still pass before `t` is served, in a rotation of at most `n` tenants. */
  function Distance(q: Queue, t: string, n: nat): int
    requires t in q.schedule && t in q.tenants
  {
    (FAIRNESS_QUANTUM - 1 - q.tenants[t].deficit) * n + Pos(q.schedule, t)
  }

  lemma RotatePositions(s: seq<string>, t: string)
    requires NoDuplicates(s) && t in s
    ensures t in s[1..] + [s[0]]
    ensures Pos(s[1..] + [s[0]], t) == if t == s[0] then |s| - 1 else Pos(s, t) - 1
  {
    var r := s[1..] + [s[0]];
    assert s == [s[0]] + s[1..];
    assert NoDuplicates(r);
    if t == s[0] {
      assert r[|s| - 1] == t;
      PosIs(r, t, |s| - 1);
    } else {
      assert r[Pos(s, t) - 1] == t;
      PosIs(r, t, Pos(s, t) - 1);
    }
  }

  /** One turn, in terms of the schedule and of the tenants other than the one served. */
  lemma VisitEffect(q: Queue)
    requires Inv(q) && q.schedule != []
    ensures Waiting(q.tenants, q.schedule[0])
    ensures var (r, served) := Visit(q);
            var t := q.schedule[0];
            var credit := q.tenants[t].deficit + q.tenants[t].weight;
            && r.limits == q.limits
            && (served.Some? <==> credit >= FAIRNESS_QUANTUM)
            && (served.Some? ==> served.value == q.tenants[t].work[0] && served.value.tenant == t)
            && (forall u | u in q.tenants && u != t :: u in r.tenants && r.tenants[u] == q.tenants[u])
            && (forall u | u in r.tenants :: u in q.tenants && r.tenants[u].weight == q.tenants[u].weight)
            && (t in r.tenants ==>
                  && r.tenants[t].deficit == credit - (if served.Some? then FAIRNESS_QUANTUM else 0)
                  && r.tenants[t].work == q.tenants[t].work[if served.Some? then 1 else 0..]
                  && r.schedule == q.schedule[1..] + [t])
            && (t !in r.tenants ==> served.Some? && |q.tenants[t].work| == 1 && r.schedule == q.schedule[1..])
  {
    hide Items, CountsOk;
    HeadFacts(q);
    var t := q.schedule[0];
    assert q.schedule == [t] + q.schedule[1..];
    assert t !in q.schedule[1..];
    WithoutLast(q.schedule[1..], t);
  }

  /** The head of the schedule, if it is not served, comes closer by earning its weight. */
  lemma HeadApproaches(q: Queue, n: nat)
    requires Inv(q) && q.schedule != [] && |q.schedule| <= n && Visit(q).1.None?
    ensures var r, t := Visit(q).0, q.schedule[0];
            t in q.tenants && t in r.schedule && t in r.tenants && Distance(r, t, n) < Distance(q, t, n)
  {
    VisitEffect(q);
    RotatePositions(q.schedule, q.schedule[0]);
    HeadFacts(q);
    hide Items, Inv, Visit, Pos;
    var t := q.schedule[0];
    Earn(q.tenants[t].deficit, q.tenants[t].weight, n);
  }

  /** Everybody else moves up. */
  lemma OthersApproach(q: Queue, t: string, n: nat)
    requires Inv(q) && t in q.schedule && t != q.schedule[0]
    ensures var r := Visit(q).0;
            t in q.tenants && t in r.schedule && t in r.tenants && Distance(r, t, n) < Distance(q, t, n)
  {
    VisitEffect(q);
    RotatePositions(q.schedule, t);
    assert Waiting(q.tenants, t);
    assert q.schedule == [q.schedule[0]] + q.schedule[1..];
    var r := Visit(q).0;
    hide Items, Inv, Visit, Pos;
    if q.schedule[0] !in r.tenants { DropPosition(q.schedule, t); }
  }

  lemma DropPosition(s: seq<string>, t: string)
    requires NoDuplicates(s) && t in s && t != s[0]
    ensures t in s[1..] && Pos(s[1..], t) == Pos(s, t) - 1
  {
    hide Pos;
    assert s == [s[0]] + s[1..];
    assert s[1..][Pos(s, t) - 1] == t;
    PosIs(s[1..], t, Pos(s, t) - 1);
  }

  lemma VisitApproaches(q: Queue, t: string, n: nat)
    requires Inv(q) && t in q.schedule && |q.schedule| <= n
    ensures Waiting(q.tenants, q.schedule[0])
    ensures var (r, served) := Visit(q);
            && |r.schedule| <= |q.schedule|
            && ((served.Some? && served.value.tenant == t) || t in r.schedule)
            && (t in r.schedule && t in r.tenants && !(served.Some? && served.value.tenant == t) ==>
                  Distance(r, t, n) < Distance(q, t, n))
  {
    VisitEffect(q);
    hide Items, Inv, Visit, Pos, Distance;
    if t == q.schedule[0] {
      if Visit(q).1.None? { HeadApproaches(q, n); }
    } else {
      OthersApproach(q, t, n);
    }
  }

  lemma Earn(deficit: nat, weight: nat, n: nat)
    requires 1 <= weight
    ensures (FAIRNESS_QUANTUM - 1 - (deficit + weight)) * n <= (FAIRNESS_QUANTUM - 1 - deficit) * n - n
  {
    assert weight * n >= n;
    assert (FAIRNESS_QUANTUM - 1 - (deficit + weight)) * n == (FAIRNESS_QUANTUM - 1 - deficit) * n - weight * n;
  }

  lemma DeficitBounds(deficit: nat, n: nat)
    requires deficit < FAIRNESS_QUANTUM
    ensures 0 <= (FAIRNESS_QUANTUM - 1 - deficit) * n <= (FAIRNESS_QUANTUM - 1) * n
  {
    TimesGrows(FAIRNESS_QUANTUM - 1 - deficit, FAIRNESS_QUANTUM - 1, n);
  }

  lemma DistanceBounds(q: Queue, t: string, n: nat)
    requires Inv(q) && t in q.schedule && |q.schedule| <= n
    ensures t in q.tenants
    ensures 0 <= Distance(q, t, n) < FAIRNESS_QUANTUM * n
  {
    hide Items, CountsOk, Pos;
    assert Waiting(q.tenants, t) && TenantOk(q.limits, t, q.tenants[t]);
    DeficitBounds(q.tenants[t].deficit, n);
  }

  // ---------- The iteration budget ----------

  lemma {:induction false} ServeReaches(q: Queue, t: string, attempts: nat, n: nat)
    requires Inv(q) && t in q.schedule && |q.schedule| <= n
    requires t in q.tenants && attempts > Distance(q, t, n)
    ensures Serve(q, attempts).1.Some?
    decreases attempts
  {
    hide Items, CountsOk, Distance, Visit;
    DistanceBounds(q, t, n);
    VisitKeepsInv(q);
    VisitApproaches(q, t, n);
    var (r, served) := Visit(q);
    if served.None? {
      assert t in r.schedule;
      assert Waiting(r.tenants, t);
      ServeReaches(r, t, attempts - 1, n);
    }
  }

  lemma {:induction false} ServeEffect(q: Queue, attempts: nat)
    requires Inv(q)
    ensures var (r, served) := Serve(q, attempts);
            && Inv(r)
            && (served.None? ==> Items(r.tenants) == Items(q.tenants))
            && (served.Some? ==> Items(q.tenants) == Items(r.tenants) + multiset{served.value})
    decreases attempts
  {
    hide Items, Inv, Visit;
    if attempts > 0 && q.schedule != [] {
      VisitKeepsInv(q);
      if Visit(q).1.None? { ServeEffect(Visit(q).0, attempts - 1); }
    }
  }

  /** A dequeue comes back empty exactly when nothing queued is still within its deadline. */
  lemma DequeueFindsWork(q: Queue, now: nat)
    requires Inv(q)
    ensures Dequeue(q, now).1.None? <==> forall w | w in Items(q.tenants) :: w.deadline <= now
    ensures Dequeue(q, now).1.Some? ==> Dequeue(q, now).1.value.deadline > now
  {
    hide Items, Inv, Expire, SameButExpired, Serve;
    ExpireEffect(q, now);
    var (r, gone) := Expire(q, now);
    var attempts := |r.schedule| * FAIRNESS_QUANTUM;
    ServeEffect(r, attempts);
    if w :| w in Items(q.tenants) && w.deadline > now {
      assert w in Items(r.tenants) by { assert w !in gone; }
      HeldIsScheduled(r, w);
      DistanceBounds(r, w.tenant, |r.schedule|);
      ServeReaches(r, w.tenant, attempts, |r.schedule|);
    }
    var served := Serve(r, attempts).1;
    if served.Some? {
      assert served.value in Items(r.tenants) && served.value in Items(q.tenants);
    }
  }

  lemma HeldIsScheduled(q: Queue, w: Work)
    requires Inv(q) && w in Items(q.tenants)
    ensures w.tenant in q.schedule
  {
    var t, i := Locate(q.tenants, w);
    assert w in q.tenants[t].work && TenantOk(q.limits, t, q.tenants[t]);
    assert Waiting(q.tenants, t);
  }

  // ---------- Runs ----------

  datatype Op =
    | DoEnqueue(work: Work, at: nat)
    | DoCancel(key: string)
    | DoDequeue(at: nat)
    | DoExpire(at: nat)
    | DoWeight(tenant: string, weight: nat)

  /** The items that an operation took in, and the ones it let go: handed out by a dequeue, returned by a cancel,
      returned by an expiry pass, or dropped by a dequeue, which returns none of what it expires. */
  datatype Effect =
    Effect(accepted: seq<Work>, served: seq<Work>, cancelled: seq<Work>, expired: seq<Work>, dropped: seq<Work>)

  function NoEffect(): Effect {
    Effect([], [], [], [], [])
  }

  /** Everything that left the queue. */
  ghost function Departed(e: Effect): multiset<Work> {
    multiset(e.served) + multiset(e.cancelled) + multiset(e.expired) + multiset(e.dropped)
  }

  function Then(e: Effect, f: Effect): Effect {
    Effect(e.accepted + f.accepted, e.served + f.served, e.cancelled + f.cancelled,
           e.expired + f.expired, e.dropped + f.dropped)
  }

  lemma DepartedThen(e: Effect, f: Effect)
    ensures multiset(Then(e, f).accepted) == multiset(e.accepted) + multiset(f.accepted)
    ensures Departed(Then(e, f)) == Departed(e) + Departed(f)
  {
    assert multiset(e.served + f.served) == multiset(e.served) + multiset(f.served);
    assert multiset(e.cancelled + f.cancelled) == multiset(e.cancelled) + multiset(f.cancelled);
    assert multiset(e.expired + f.expired) == multiset(e.expired) + multiset(f.expired);
    assert multiset(e.dropped + f.dropped) == multiset(e.dropped) + multiset(f.dropped);
  }

  function Listed(w: Option<Work>): seq<Work> {
    if w.Some? then [w.value] else []
  }

  ghost function Step(q: Queue, op: Op): (Queue, Effect)
    requires Inv(q)
  {
    match op
    case DoEnqueue(w, now) =>
      var (r, outcome) := Enqueue(q, w, now);
      (r, NoEffect().(accepted := if outcome.Ok? then [w] else []))
    case DoCancel(key) =>
      var (r, removed) := Cancel(q, key);
      (r, NoEffect().(cancelled := Listed(removed)))
    case DoDequeue(now) =>
      var (r, served) := Dequeue(q, now);
      (r, NoEffect().(served := Listed(served), dropped := Expire(q, now).1))
    case DoExpire(now) =>
      var (r, expired) := Expire(q, now);
      (r, NoEffect().(expired := expired))
    case DoWeight(t, weight) =>
      (SetTenantWeight(q, t, weight).0, NoEffect())
  }

  /** Every operation keeps the four parts in agreement and accounts for every item. */
  lemma StepAccounts(q: Queue, op: Op)
    requires Inv(q)
    ensures var (r, e) := Step(q, op);
            && Inv(r)
            && Items(q.tenants) + multiset(e.accepted) ==
               Items(r.tenants) + Departed(e)
  {
    hide Items, Inv, Enqueue, Cancel, Expire, Serve, SetTenantWeight, SameButExpired;
    match op
    case DoEnqueue(w, now) =>
      EnqueueKeepsInv(q, w, now);
      var e := Step(q, op).1;
      assert multiset(e.accepted) == if Enqueue(q, w, now).1.Ok? then multiset{w} else multiset{};
      assert Departed(e) == multiset{};
    case DoCancel(key) =>
      CancelKeepsInv(q, key);
      var removed := Cancel(q, key).1;
      assert removed.Some? ==> multiset(Listed(removed)) == multiset{removed.value};
    case DoDequeue(now) =>
      ExpireEffect(q, now);
      var r := Expire(q, now).0;
      ServeEffect(r, |r.schedule| * FAIRNESS_QUANTUM);
      var served := Serve(r, |r.schedule| * FAIRNESS_QUANTUM).1;
      assert served.Some? ==> multiset(Listed(served)) == multiset{served.value};
    case DoExpire(now) => ExpireEffect(q, now);
    case DoWeight(t, weight) => SetTenantWeightKeepsInv(q, t, weight);
  }

  ghost function Run(q: Queue, ops: seq<Op>): Queue
    requires Inv(q)
    decreases |ops|
  {
    if ops == [] then q
    else
      StepAccounts(q, ops[0]);
      Run(Step(q, ops[0]).0, ops[1..])
  }

  /** The effects of a run, concatenated. */
  ghost function Effects(q: Queue, ops: seq<Op>): Effect
    requires Inv(q)
    decreases |ops|
  {
    if ops == [] then NoEffect()
    else
      StepAccounts(q, ops[0]);
      var (r, e) := Step(q, ops[0]);
      var rest := Effects(r, ops[1..]);
      Then(e, rest)
  }

  lemma Balance(held: multiset<Work>, in1: multiset<Work>, mid: multiset<Work>, out1: multiset<Work>,
                in2: multiset<Work>, end: multiset<Work>, out2: multiset<Work>)
    requires held + in1 == mid + out1 && mid + in2 == end + out2
    ensures held + (in1 + in2) == end + (out1 + out2)
  {
    forall w: Work ensures (held + (in1 + in2))[w] == (end + (out1 + out2))[w] {
      assert (held + in1)[w] == (mid + out1)[w] && (mid + in2)[w] == (end + out2)[w];
    }
  }

  /** In every state reachable from an empty queue the representation invariant holds, and every accepted item is
      in exactly one place: still queued, handed out, cancelled, expired or dropped. */
  lemma {:induction false} Conservation(q: Queue, ops: seq<Op>)
    requires Inv(q)
    ensures var e := Effects(q, ops);
            && Inv(Run(q, ops))
            && Items(q.tenants) + multiset(e.accepted) ==
               Items(Run(q, ops).tenants) + Departed(e)
    decreases |ops|
  {
    hide Items, Inv, Step, Then;
    if ops == [] {
      assert Departed(NoEffect()) == multiset{};
    } else {
      StepAccounts(q, ops[0]);
      var (r, e) := Step(q, ops[0]);
      Conservation(r, ops[1..]);
      var rest := Effects(r, ops[1..]);
      DepartedThen(e, rest);
      Balance(Items(q.tenants), multiset(e.accepted), Items(r.tenants), Departed(e),
              multiset(rest.accepted), Items(Run(r, ops[1..]).tenants), Departed(rest));
    }
  }

  lemma NewIsEmpty(limits: Limits)
    requires limits.Valid()
    ensures Inv(New(limits)) && Items(New(limits).tenants) == multiset{}
  {
  }

  // ---------- Arrival order ----------

  predicate Subsequence(a: seq<Work>, b: seq<Work>)
    decreases |b|
  {
    a == [] || (b != [] && ((a[0] == b[0] && Subsequence(a[1..], b[1..])) || Subsequence(a, b[1..])))
  }

  lemma {:induction false} SubsequenceReflexive(a: seq<Work>)
    ensures Subsequence(a, a)
  {
    if a != [] { SubsequenceReflexive(a[1..]); }
  }

  lemma {:induction false} SubsequenceTransitive(a: seq<Work>, b: seq<Work>, c: seq<Work>)
    requires Subsequence(a, b) && Subsequence(b, c)
    ensures Subsequence(a, c)
    decreases |c|
  {
    if a != [] {
      if b[0] == c[0] && Subsequence(b[1..], c[1..]) {
        if a[0] == b[0] && Subsequence(a[1..], b[1..]) {
          SubsequenceTransitive(a[1..], b[1..], c[1..]);
        } else {
          SubsequenceTransitive(a, b[1..], c[1..]);
        }
      } else {
        SubsequenceTransitive(a, b, c[1..]);
      }
    }
  }

  lemma {:induction false} SubsequenceConcat(a: seq<Work>, b: seq<Work>, c: seq<Work>, d: seq<Work>)
    requires Subsequence(a, b) && Subsequence(c, d)
    ensures Subsequence(a + c, b + d)
    decreases |b|
  {
    if b == [] {
      assert a + c == c && b + d == d;
    } else {
      assert (b + d)[1..] == b[1..] + d;
      if a != [] && a[0] == b[0] && Subsequence(a[1..], b[1..]) {
        SubsequenceConcat(a[1..], b[1..], c, d);
        assert (a + c)[1..] == a[1..] + c;
      } else {
        SubsequenceConcat(a, b[1..], c, d);
      }
    }
  }

  lemma {:induction false} LiveIsSubsequence(work: seq<Work>, now: nat)
    ensures Subsequence(Live(work, now), work)
  {
    if work != [] {
      LiveIsSubsequence(work[1..], now);
      if work[0].deadline > now {
        assert Live(work, now)[1..] == Live(work[1..], now);
      } else {
        assert Live(work, now) == Live(work[1..], now);
      }
    }
  }

  lemma RemovalIsSubsequence(work: seq<Work>, i: nat)
    requires i < |work|
    ensures Subsequence(work[..i] + work[i + 1..], work)
  {
    SubsequenceReflexive(work[..i]);
    SubsequenceReflexive(work[i + 1..]);
    assert work[i..][1..] == work[i + 1..];
    assert Subsequence(work[i + 1..], work[i..]);
    SubsequenceConcat(work[..i], work[..i], work[i + 1..], work[i..]);
    assert work == work[..i] + work[i..];
  }

  function Backlog(q: Queue, t: string): seq<Work> {
    if t in q.tenants then q.tenants[t].work else []
  }

  function OfTenant(s: seq<Work>, t: string): seq<Work> {
    if s == [] then []
    else (if s[0].tenant == t then [s[0]] else []) + OfTenant(s[1..], t)
  }

  lemma OfTenantSingle(w: Work, t: string)
    ensures OfTenant([w], t) == if w.tenant == t then [w] else []
  {
    assert [w][1..] == [];
  }

  lemma {:induction false} OfTenantConcat(a: seq<Work>, b: seq<Work>, t: string)
    ensures OfTenant(a + b, t) == OfTenant(a, t) + OfTenant(b, t)
  {
    if a == [] {
      assert a + b == b;
    } else {
      assert (a + b)[0] == a[0] && (a + b)[1..] == a[1..] + b;
      OfTenantConcat(a[1..], b, t);
      Associative(if a[0].tenant == t then [a[0]] else [], OfTenant(a[1..], t), OfTenant(b, t));
    }
  }

  lemma {:induction false} ServeTakesHead(q: Queue, attempts: nat, t: string)
    requires Inv(q)
    ensures var (r, served) := Serve(q, attempts);
            OfTenant(Listed(served), t) + Backlog(r, t) == Backlog(q, t)
    decreases attempts
  {
    hide Items, CountsOk, Visit;
    if attempts > 0 && q.schedule != [] {
      VisitKeepsInv(q);
      VisitEffect(q);
      var (r, served) := Visit(q);
      if served.None? {
        ServeTakesHead(r, attempts - 1, t);
        assert Backlog(r, t) == Backlog(q, t);
      } else if served.value.tenant == t {
        OfTenantSingle(served.value, t);
        assert Backlog(q, t) == [served.value] + q.tenants[t].work[1..];
        assert Backlog(r, t) == q.tenants[t].work[1..];
      } else {
        OfTenantSingle(served.value, t);
        assert Backlog(r, t) == Backlog(q, t);
      }
    }
  }

  lemma ExpireKeepsOrder(q: Queue, now: nat, t: string)
    requires Inv(q)
    ensures Subsequence(Backlog(Expire(q, now).0, t), Backlog(q, t))
  {
    hide Items, Inv, Expire;
    ExpireEffect(q, now);
    if t in q.tenants { LiveIsSubsequence(q.tenants[t].work, now); }
  }

  /** One step hands a tenant its oldest work, and appends what it submits. */
  ghost predicate InOrder(q: Queue, op: Op, t: string)
    requires Inv(q)
  {
    var (r, e) := Step(q, op);
    Subsequence(OfTenant(e.served, t) + Backlog(r, t), Backlog(q, t) + OfTenant(e.accepted, t))
  }

  lemma EnqueueInOrder(q: Queue, op: Op, t: string)
    requires Inv(q) && op.DoEnqueue?
    ensures InOrder(q, op, t)
  {
    hide Items, Inv, Subsequence;
    var (r, e) := Step(q, op);
    OfTenantSingle(op.work, t);
    assert Backlog(r, t) == Backlog(q, t) + OfTenant(e.accepted, t);
    SubsequenceReflexive(Backlog(r, t));
    assert [] + Backlog(r, t) == Backlog(r, t);
  }

  lemma CancelInOrder(q: Queue, op: Op, t: string)
    requires Inv(q) && op.DoCancel?
    ensures InOrder(q, op, t)
  {
    hide Items, CountsOk, Subsequence;
    var (r, e) := Step(q, op);
    SubsequenceReflexive(Backlog(q, t));
    QueuedKeyHeld(q, op.key);
    if op.key in q.keys {
      var (u, i) := Where(q, op.key);
      RemovalIsSubsequence(q.tenants[u].work, i);
    }
    assert Backlog(q, t) + [] == Backlog(q, t) && [] + Backlog(r, t) == Backlog(r, t);
  }

  lemma DequeueInOrder(q: Queue, op: Op, t: string)
    requires Inv(q) && op.DoDequeue?
    ensures InOrder(q, op, t)
  {
    hide Items, Inv, Expire, Serve, Subsequence;
    ExpireEffect(q, op.at);
    ExpireKeepsOrder(q, op.at, t);
    var p := Expire(q, op.at).0;
    ServeTakesHead(p, |p.schedule| * FAIRNESS_QUANTUM, t);
    assert Backlog(q, t) + [] == Backlog(q, t);
  }

  lemma OtherInOrder(q: Queue, op: Op, t: string)
    requires Inv(q) && (op.DoExpire? || op.DoWeight?)
    ensures InOrder(q, op, t)
  {
    hide Items, Inv, Expire, Subsequence;
    var (r, e) := Step(q, op);
    SubsequenceReflexive(Backlog(q, t));
    if op.DoExpire? { ExpireKeepsOrder(q, op.at, t); }
    assert Backlog(q, t) + [] == Backlog(q, t) && [] + Backlog(r, t) == Backlog(r, t);
  }

  lemma StepKeepsOrder(q: Queue, op: Op, t: string)
    requires Inv(q)
    ensures InOrder(q, op, t)
  {
    hide InOrder, Inv;
    if op.DoEnqueue? {
      EnqueueInOrder(q, op, t);
    } else if op.DoCancel? {
      CancelInOrder(q, op, t);
    } else if op.DoDequeue? {
      DequeueInOrder(q, op, t);
    } else {
      OtherInOrder(q, op, t);
    }
  }

  lemma SubsequenceChain(start: seq<Work>, in1: seq<Work>, out1: seq<Work>, mid: seq<Work>,
                         in2: seq<Work>, out2: seq<Work>, end: seq<Work>)
    requires Subsequence(out1 + mid, start + in1) && Subsequence(out2 + end, mid + in2)
    ensures Subsequence(out1 + out2 + end, start + (in1 + in2))
  {
    hide Subsequence;
    SubsequenceReflexive(out1);
    SubsequenceReflexive(in2);
    SubsequenceConcat(out1, out1, out2 + end, mid + in2);
    SubsequenceConcat(out1 + mid, start + in1, in2, in2);
    Associative(out1, out2, end);
    Associative(out1, mid, in2);
    Associative(start, in1, in2);
    SubsequenceTransitive(out1 + out2 + end, out1 + mid + in2, start + (in1 + in2));
  }

  lemma Associative(a: seq<Work>, b: seq<Work>, c: seq<Work>)
    ensures a + b + c == a + (b + c)
  {
  }

  /** What a tenant has been handed, followed by what it still has queued, is a subsequence of what it submitted. */
  lemma {:induction false} ArrivalOrder(q: Queue, ops: seq<Op>, t: string)
    requires Inv(q)
    ensures var e := Effects(q, ops);
            Subsequence(OfTenant(e.served, t) + Backlog(Run(q, ops), t), Backlog(q, t) + OfTenant(e.accepted, t))
    decreases |ops|
  {
    hide Items, Inv, Step, Subsequence, Backlog;
    if ops == [] {
      SubsequenceReflexive(Backlog(q, t));
      assert [] + Backlog(q, t) == Backlog(q, t) == Backlog(q, t) + [];
    } else {
      StepAccounts(q, ops[0]);
      var (r, e) := Step(q, ops[0]);
      var rest := Effects(r, ops[1..]);
      StepKeepsOrder(q, ops[0], t);
      ArrivalOrder(r, ops[1..], t);
      OfTenantConcat(e.served, rest.served, t);
      OfTenantConcat(e.accepted, rest.accepted, t);
      SubsequenceChain(Backlog(q, t), OfTenant(e.accepted, t), OfTenant(e.served, t), Backlog(r, t),
                       OfTenant(rest.accepted, t), OfTenant(rest.served, t), Backlog(Run(r, ops[1..]), t));
    }
  }
}
