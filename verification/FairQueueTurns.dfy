/** Whom a dequeue serves, read off the queue before the call. */
module FairQueueTurns {
  import opened Numbers
  import opened Orders
  import opened Outcomes
  import opened FairQueue
  import opened FairQueueRuns

  /** How many visits a tenant needs to save up a full quantum. */
  function Rounds(deficit: nat, weight: nat): (n: nat)
    requires deficit < FAIRNESS_QUANTUM && 1 <= weight
    ensures 1 <= n <= FAIRNESS_QUANTUM
    ensures n == 1 <==> deficit + weight >= FAIRNESS_QUANTUM
  {
    var missing := FAIRNESS_QUANTUM - deficit;
    AddDivisor(missing - 1, weight);
    Quotient(missing - 1, weight);
    (missing + weight - 1) / weight
  }

  lemma Quotient(x: nat, d: nat)
    requires 1 <= d
    ensures 0 <= x / d <= x && (x / d == 0 <==> x < d)
  {
    assert x == (x / d) * d + x % d;
    TimesGrows(1, d, x / d);
  }

  lemma RoundsStep(deficit: nat, weight: nat)
    requires 1 <= weight && deficit + weight < FAIRNESS_QUANTUM
    ensures Rounds(deficit + weight, weight) == Rounds(deficit, weight) - 1
  {
    var x := FAIRNESS_QUANTUM - deficit - 1;
    AddDivisor(x - weight, weight);
    AddDivisor(x, weight);
  }

  lemma AddDivisor(x: nat, d: nat)
    requires 1 <= d
    ensures (x + d) / d == x / d + 1
  {
    var a, b := x / d + 1, (x + d) / d;
    assert x == (x / d) * d + x % d && x + d == b * d + (x + d) % d;
    assert a * d == (x / d) * d + d;
    SameRemainder(d, a, x % d, b, (x + d) % d);
  }

  /** A number has one quotient and one remainder. */
  lemma SameRemainder(n: nat, c: nat, a: nat, d: nat, b: nat)
    requires a < n && b < n && c * n + a == d * n + b
    ensures a == b && c == d
  {
    if c < d {
      TimesGrows(c + 1, d, n);
    } else if d < c {
      TimesGrows(d + 1, c, n);
    }
  }

  function After(rounds: nat, n: nat, pos: nat): nat
    requires 1 <= rounds
  {
    (rounds - 1) * n + pos
  }

  /** How many turns pass before `t` is due: a full rotation for every round after the next, then its place in line. */
  function Turns(q: Queue, t: string): nat
    requires Inv(q) && t in q.schedule
  {
    Scheduled(q, t);
    After(Rounds(q.tenants[t].deficit, q.tenants[t].weight), |q.schedule|, Pos(q.schedule, t))
  }

  lemma Scheduled(q: Queue, t: string)
    requires Inv(q) && t in q.schedule
    ensures t in q.tenants && q.tenants[t].work != []
    ensures q.tenants[t].deficit < FAIRNESS_QUANTUM && 1 <= q.tenants[t].weight
  {
    assert Waiting(q.tenants, t) && TenantOk(q.limits, t, q.tenants[t]);
  }

  /** The next in line: nobody in the rotation is due sooner. */
  ghost predicate Next(q: Queue, t: string)
    requires Inv(q)
  {
    t in q.schedule && forall u | u in q.schedule :: Turns(q, t) <= Turns(q, u)
  }

  lemma TurnsBound(q: Queue, t: string)
    requires Inv(q) && t in q.schedule
    ensures Turns(q, t) < |q.schedule| * FAIRNESS_QUANTUM
  {
    Scheduled(q, t);
    var rounds := Rounds(q.tenants[t].deficit, q.tenants[t].weight);
    hide Items, Inv, Rounds, Pos;
    TimesGrows(rounds - 1, FAIRNESS_QUANTUM - 1, |q.schedule|);
  }

  /** No two tenants are due at once, so at most one is next. */
  lemma TurnsDiffer(q: Queue, t: string, u: string)
    requires Inv(q) && t in q.schedule && u in q.schedule && Turns(q, t) == Turns(q, u)
    ensures t == u
  {
    Scheduled(q, t);
    Scheduled(q, u);
    var n, a, b := |q.schedule|, Pos(q.schedule, t), Pos(q.schedule, u);
    var c := Rounds(q.tenants[t].deficit, q.tenants[t].weight) - 1;
    var d := Rounds(q.tenants[u].deficit, q.tenants[u].weight) - 1;
    SameRemainder(n, c, a, d, b);
  }

  /** Some tenant is next whenever anybody waits. */
  lemma {:induction false} SomebodyIsNext(q: Queue, k: nat) returns (t: string)
    requires Inv(q) && 1 <= k <= |q.schedule|
    ensures t in q.schedule[..k] && forall u | u in q.schedule[..k] :: Turns(q, t) <= Turns(q, u)
  {
    hide Inv, Turns;
    assert q.schedule[..k] == q.schedule[..k - 1] + [q.schedule[k - 1]];
    t := q.schedule[k - 1];
    if k > 1 {
      var s := SomebodyIsNext(q, k - 1);
      if Turns(q, s) <= Turns(q, t) { t := s; }
    }
  }

  /** The tenant at the head is served if and only if it is due. */
  lemma ServedWhenDue(q: Queue)
    requires Inv(q) && q.schedule != []
    ensures Visit(q).1.Some? <==> Turns(q, q.schedule[0]) == 0
  {
    VisitEffect(q);
    var t := q.schedule[0];
    Scheduled(q, t);
    HeadIsFirst(q.schedule);
    hide Items, Inv, Pos, Visit, Turns;
    var d, w := q.tenants[t].deficit, q.tenants[t].weight;
    TurnsAre(q, t, d, w, 0);
    FirstLap(Rounds(d, w), |q.schedule|);
  }

  lemma FirstLap(rounds: nat, n: nat)
    requires 1 <= rounds && 1 <= n
    ensures After(rounds, n, 0) == 0 <==> rounds == 1
  {
    if rounds > 1 { TimesGrows(1, rounds - 1, n); }
  }

  lemma NextLap(rounds: nat, n: nat)
    requires 2 <= rounds && 1 <= n
    ensures After(rounds - 1, n, n - 1) == After(rounds, n, 0) - 1
  {
    assert (rounds - 1) * n == (rounds - 2) * n + n;
  }

  lemma SameLap(rounds: nat, n: nat, pos: nat)
    requires 1 <= rounds && 1 <= pos
    ensures After(rounds, n, pos - 1) == After(rounds, n, pos) - 1
  {
  }

  /** The schedule has turned by one place, and the tenant that was at its head has earned its weight. */
  ghost predicate Rotated(q: Queue, r: Queue)
    requires Inv(q) && q.schedule != []
  {
    var head := q.schedule[0];
    Scheduled(q, head);
    && r.schedule == q.schedule[1..] + [head]
    && r.tenants.Keys == q.tenants.Keys
    && r.tenants[head].work == q.tenants[head].work && r.tenants[head].weight == q.tenants[head].weight
    && r.tenants[head].deficit == q.tenants[head].deficit + q.tenants[head].weight
    && forall t | t in q.tenants && t != head :: r.tenants[t] == q.tenants[t]
  }

  lemma Unserved(q: Queue)
    requires Inv(q) && q.schedule != [] && Visit(q).1.None?
    ensures Inv(Visit(q).0) && Rotated(q, Visit(q).0)
  {
    VisitKeepsInv(q);
    VisitEffect(q);
  }

  lemma HeadIsFirst(s: seq<string>)
    requires s != []
    ensures forall t | t in s :: Pos(s, t) == 0 <==> t == s[0]
  {
  }

  lemma TurnsAre(q: Queue, t: string, deficit: nat, weight: nat, pos: nat)
    requires Inv(q) && t in q.schedule && t in q.tenants && Pos(q.schedule, t) == pos
    requires q.tenants[t].deficit == deficit && q.tenants[t].weight == weight
    ensures deficit < FAIRNESS_QUANTUM && 1 <= weight
    ensures Turns(q, t) == After(Rounds(deficit, weight), |q.schedule|, pos)
  {
    Scheduled(q, t);
  }

  lemma RotatedPosition(q: Queue, r: Queue, t: string)
    requires Inv(q) && t in q.schedule && Rotated(q, r)
    ensures t in r.schedule && |r.schedule| == |q.schedule|
    ensures Pos(r.schedule, t) == if t == q.schedule[0] then |q.schedule| - 1 else Pos(q.schedule, t) - 1
    ensures t == q.schedule[0] <==> Pos(q.schedule, t) == 0
  {
    var s := q.schedule;
    assert NoDuplicates(s) && r.schedule == s[1..] + [s[0]];
    hide Items, Inv, Rotated, Pos;
    RotatePositions(s, t);
    HeadIsFirst(s);
  }

  lemma RotatedTenant(q: Queue, r: Queue, t: string)
    requires Inv(q) && t in q.schedule && Rotated(q, r)
    ensures t in q.tenants && t in r.tenants && r.tenants[t].weight == q.tenants[t].weight
    ensures r.tenants[t].deficit == q.tenants[t].deficit + if t == q.schedule[0] then q.tenants[t].weight else 0
  {
    Scheduled(q, t);
    hide Items, Inv;
  }

  lemma CountDown(q: Queue, r: Queue, t: string)
    requires Inv(q) && Inv(r) && t in q.schedule && Rotated(q, r)
    ensures t in r.schedule && Turns(r, t) == Turns(q, t) - 1
  {
    hide Items, Inv, Rotated, Rounds, Pos, After, Turns;
    RotatedPosition(q, r, t);
    RotatedTenant(q, r, t);
    var d, w, n, pos := q.tenants[t].deficit, q.tenants[t].weight, |q.schedule|, Pos(q.schedule, t);
    TurnsAre(q, t, d, w, pos);
    if pos == 0 {
      TurnsAre(r, t, d + w, w, n - 1);
      RoundsStep(d, w);
      NextLap(Rounds(d, w), n);
    } else {
      TurnsAre(r, t, d, w, pos - 1);
      SameLap(Rounds(d, w), n, pos);
    }
  }

  /** A visit that serves nobody brings everybody in the rotation exactly one turn closer. */
  lemma VisitCountsDown(q: Queue, t: string)
    requires Inv(q) && t in q.schedule && Visit(q).1.None?
    ensures var r := Visit(q).0;
            && Inv(r) && t in r.schedule
            && Turns(r, t) == Turns(q, t) - 1
            && t in q.tenants && t in r.tenants && r.tenants[t].work == q.tenants[t].work
  {
    Unserved(q);
    Scheduled(q, t);
    hide Items, Inv, Turns;
    CountDown(q, Visit(q).0, t);
  }

  lemma VisitKeepsNext(q: Queue, t: string)
    requires Inv(q) && Next(q, t) && Visit(q).1.None?
    ensures Inv(Visit(q).0) && Next(Visit(q).0, t)
  {
    VisitCountsDown(q, t);
    VisitEffect(q);
    var r := Visit(q).0;
    forall u | u in r.schedule ensures Turns(r, t) <= Turns(r, u) {
      assert u in q.schedule;
      VisitCountsDown(q, u);
    }
  }

  /** What is served first, and what is left to serve. */
  lemma ServesFirst(q: Queue, t: string)
    requires Inv(q) && Next(q, t)
    ensures Waiting(q.tenants, q.schedule[0]) && t in q.tenants && q.tenants[t].work != []
    ensures var (r, served) := Visit(q);
            && (Turns(q, t) == 0 ==> served == Some(q.tenants[t].work[0]))
            && (Turns(q, t) > 0 ==> served == None && Inv(r) && Next(r, t) && Turns(r, t) == Turns(q, t) - 1
                                    && t in r.tenants && r.tenants[t].work == q.tenants[t].work)
  {
    Scheduled(q, t);
    ServedWhenDue(q);
    VisitEffect(q);
    var head := q.schedule[0];
    assert Turns(q, t) <= Turns(q, head);
    hide Items, Inv, Turns, Visit;
    if Visit(q).1.Some? {
      TurnsDiffer(q, t, head);
    } else {
      VisitCountsDown(q, t);
      VisitKeepsNext(q, t);
    }
  }

  lemma ServeOnce(q: Queue, attempts: nat)
    requires Inv(q) && q.schedule != []
    ensures Waiting(q.tenants, q.schedule[0]) && Inv(Visit(q).0)
    ensures Serve(q, attempts) ==
            if attempts == 0 then (q, None)
            else if Visit(q).1.Some? then Visit(q)
            else Serve(Visit(q).0, attempts - 1)
  {
    hide Items, CountsOk, Visit;
    VisitKeepsInv(q);
  }

  /** Serving hands out the oldest work of the tenant that is next, on exactly the visit its number of turns says. */
  lemma {:induction false} ServesNext(q: Queue, attempts: nat, t: string)
    requires Inv(q) && Next(q, t)
    ensures t in q.tenants && q.tenants[t].work != []
    ensures Serve(q, attempts).1 == if attempts > Turns(q, t) then Some(q.tenants[t].work[0]) else None
    decreases attempts
  {
    ServesFirst(q, t);
    hide Items, Inv, Turns, Visit, Next, Serve;
    ServeOnce(q, attempts);
    if attempts > 0 && Turns(q, t) > 0 {
      ServesNext(Visit(q).0, attempts - 1, t);
    }
  }

  /** A dequeue hands out the oldest work of the tenant that is next once the expired work is gone, and comes back
      empty only when nobody waits. */
  lemma DequeueServesNext(q: Queue, now: nat)
    requires Inv(q)
    ensures var p := Expire(q, now).0;
            && Inv(p)
            && (Dequeue(q, now).1.None? <==> p.schedule == [])
            && (forall t | Next(p, t) :: t in p.tenants && p.tenants[t].work != []
                                         && Dequeue(q, now).1 == Some(p.tenants[t].work[0]))
  {
    ExpireEffect(q, now);
    var p := Expire(q, now).0;
    hide Inv, Expire, Turns;
    forall t | Next(p, t)
      ensures t in p.tenants && p.tenants[t].work != [] && Dequeue(q, now).1 == Some(p.tenants[t].work[0])
    {
      TurnsBound(p, t);
      ServesNext(p, |p.schedule| * FAIRNESS_QUANTUM, t);
    }
    if p.schedule != [] {
      assert p.schedule[..|p.schedule|] == p.schedule;
      var t := SomebodyIsNext(p, |p.schedule|);
      assert Next(p, t);
    }
  }
}
