/** Which expired work the caller hears of. An expiry pass returns what it removes; a dequeue expires as well, and
    drops what it removes. */
module FairQueueExpiry {
  import opened Outcomes
  import opened FairQueue
  import opened FairQueueRuns

  /** The operation removes expired work, and finds `w` queued and past its deadline. */
  ghost predicate Finds(q: Queue, op: Op, w: Work) {
    (op.DoExpire? || op.DoDequeue?) && w.deadline <= op.at && w in Items(q.tenants)
  }

  /** The first operation of a run that does so. */
  ghost function FirstToFind(q: Queue, ops: seq<Op>, w: Work): Option<Op>
    requires Inv(q)
    decreases |ops|
  {
    if ops == [] then None
    else if Finds(q, ops[0], w) then Some(ops[0])
    else
      StepAccounts(q, ops[0]);
      FirstToFind(Step(q, ops[0]).0, ops[1..], w)
  }

  /** What an expiry pass returns and what a dequeue drops is exactly what they find, and it is gone afterwards. */
  lemma StepLetsGo(q: Queue, op: Op, w: Work)
    requires Inv(q)
    ensures var (r, e) := Step(q, op);
            && (w in e.expired <==> op.DoExpire? && Finds(q, op, w))
            && (w in e.dropped <==> op.DoDequeue? && Finds(q, op, w))
            && (Finds(q, op, w) ==> w !in Items(r.tenants))
  {
    hide Items, Inv, Expire, Serve, SameButExpired;
    if op.DoExpire? || op.DoDequeue? {
      ExpireEffect(q, op.at);
      var (p, gone) := Expire(q, op.at);
      assert w in multiset(gone) <==> w in gone;
      if op.DoDequeue? {
        ServeEffect(p, |p.schedule| * FAIRNESS_QUANTUM);
        var (r, served) := Dequeue(q, op.at);
        assert w in Items(r.tenants) ==> w in Items(r.tenants) + multiset(Listed(served));
      }
    }
  }

  /** What is neither queued nor accepted turns up nowhere. */
  lemma NeverSeen(q: Queue, ops: seq<Op>, w: Work)
    requires Inv(q) && w !in Items(q.tenants) && w !in Effects(q, ops).accepted
    ensures var e := Effects(q, ops);
            w !in e.served && w !in e.cancelled && w !in e.expired && w !in e.dropped
  {
    hide Items, Inv, Effects, Run;
    Conservation(q, ops);
    var e := Effects(q, ops);
    assert (Items(q.tenants) + multiset(e.accepted))[w] == 0;
    assert Departed(e)[w] == 0;
  }

  /** An item leaves in one way only. */
  lemma LeavesOnce(q: Queue, ops: seq<Op>, w: Work)
    requires Inv(q) && w !in Effects(q, ops).accepted && w in Effects(q, ops).dropped
    ensures var e := Effects(q, ops); w !in e.served && w !in e.cancelled && w !in e.expired
    ensures w !in Items(Run(q, ops).tenants)
  {
    var e := Effects(q, ops);
    assert Items(q.tenants)[w] <= 1;
    hide Items, Inv, Effects, Run;
    Conservation(q, ops);
    assert (Items(q.tenants) + multiset(e.accepted))[w] <= 1;
    assert Departed(e)[w] <= 1;
  }

  lemma {:induction false} Ends(q: Queue, ops: seq<Op>, w: Work)
    requires Inv(q) && w !in Effects(q, ops).accepted
    ensures var e, first := Effects(q, ops), FirstToFind(q, ops, w);
            && (w in e.dropped <==> first.Some? && first.value.DoDequeue?)
            && (w in e.expired <==> first.Some? && first.value.DoExpire?)
    decreases |ops|
  {
    hide Items, Inv, Step, Finds;
    if ops != [] {
      StepAccounts(q, ops[0]);
      StepLetsGo(q, ops[0], w);
      var (r, e) := Step(q, ops[0]);
      assert w !in Effects(r, ops[1..]).accepted;
      if Finds(q, ops[0], w) {
        NeverSeen(r, ops[1..], w);
        FindersRemove(q, ops[0], w);
      } else {
        Ends(r, ops[1..], w);
      }
    }
  }

  lemma FindersRemove(q: Queue, op: Op, w: Work)
    requires Finds(q, op, w)
    ensures op.DoExpire? || op.DoDequeue?
  {
  }

  /** The item is no longer queued, and no operation of the run has returned it. */
  ghost predicate Unreported(q: Queue, ops: seq<Op>, w: Work)
    requires Inv(q)
  {
    var e := Effects(q, ops);
    w !in Items(Run(q, ops).tenants) && w !in e.served && w !in e.cancelled && w !in e.expired
  }

  /** Once accepted, and until it is submitted again, an item leaves the queue unreported if and only if the first expiry
      pass or dequeue to find it past its deadline is a dequeue. */
  lemma UnreportedIff(q: Queue, w: Work, now: nat, ops: seq<Op>)
    requires Inv(q) && Enqueue(q, w, now).1.Ok?
    ensures var r := Enqueue(q, w, now).0;
            && Inv(r)
            && var first := FirstToFind(r, ops, w);
               w !in Effects(r, ops).accepted ==> (Unreported(r, ops, w) <==> first.Some? && first.value.DoDequeue?)
  {
    hide Items, Inv, Effects, Run, FirstToFind, Enqueue;
    EnqueueKeepsInv(q, w, now);
    var r := Enqueue(q, w, now).0;
    var e := Effects(r, ops);
    if w !in e.accepted {
      Ends(r, ops, w);
      Conservation(r, ops);
      assert w in Items(r.tenants) + multiset(e.accepted);
      assert w in Departed(e) || w in Items(Run(r, ops).tenants);
      if w in e.dropped { LeavesOnce(r, ops, w); }
    }
  }

  /** For one: accepted by an empty queue, dequeued at its deadline, and never heard of again. */
  lemma DroppedSilently(limits: Limits, w: Work, now: nat, ops: seq<Op>)
    requires limits.Valid() && w.Valid(now)
    ensures var q := New(limits);
            && Inv(q) && Enqueue(q, w, now).1.Ok?
            && var r := Enqueue(q, w, now).0;
               && Inv(r)
               && Dequeue(r, w.deadline).1 == None
               && (w !in Effects(r, [DoDequeue(w.deadline)] + ops).accepted ==>
                     Unreported(r, [DoDequeue(w.deadline)] + ops, w))
  {
    NewIsEmpty(limits);
    var q := New(limits);
    assert Enqueue(q, w, now).1.Ok?;
    hide Items, Inv, Effects, Run, Enqueue, Unreported, New;
    EnqueueKeepsInv(q, w, now);
    var r, run := Enqueue(q, w, now).0, [DoDequeue(w.deadline)] + ops;
    assert Items(r.tenants) == multiset{w};
    assert forall v | v in Items(r.tenants) :: v == w;
    DequeueFindsWork(r, w.deadline);
    assert run[0] == DoDequeue(w.deadline) && Finds(r, run[0], w);
    UnreportedIff(q, w, now, run);
  }
}
