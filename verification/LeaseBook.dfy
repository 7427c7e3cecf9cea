/** The lease book of `placement.rs`: one lease per sandbox identity, fenced by an assignment epoch. */
module LeaseBooks {
  import opened Orders
  import opened Outcomes
  import opened Numbers

  const MAXIMUM_LEASE_MILLIS: nat := 5 * 60 * 1_000

  type Identity = ScopedName

  datatype LeaseState = Active | Fenced | Completed | Quarantined

  datatype Lease = Lease(
    identity: Identity, worker: string, epoch: nat, expires: nat, state: LeaseState, digest: Option<string>)

  datatype Rejection = InvalidLifetime | ActiveConflict | StaleFence | Expired | InvalidResult | EpochOverflow

  type Book = map<Identity, Lease>

  predicate ValidDigest(value: string) {
    && |value| == 71
    && value[..7] == "sha256:"
    && forall i | 7 <= i < 71 :: '0' <= value[i] <= '9' || 'a' <= value[i] <= 'f'
  }

  predicate ValidLifetime(lifetime: nat) {
    0 < lifetime <= MAXIMUM_LEASE_MILLIS
  }

  // ---------- The calls ----------

  datatype Call =
    | Assign(identity: Identity, worker: string, now: nat, lifetime: nat)
    | Renew(identity: Identity, worker: string, epoch: nat, now: nat, lifetime: nat)
    | Complete(identity: Identity, worker: string, epoch: nat, now: nat, digest: string)
    | Quarantine(identity: Identity, worker: string, epoch: nat)
    | FenceExpired(now: nat)

  datatype Reply =
    | Assigned(lease: Lease) | Renewed(expires: nat) | Accepted | FencedLeases(leases: seq<Lease>)
    | Rejected(reason: Rejection)

  predicate Current(book: Book, identity: Identity, worker: string, epoch: nat) {
    identity in book && book[identity].worker == worker && book[identity].epoch == epoch
  }

  predicate Held(book: Book, identity: Identity, worker: string, epoch: nat) {
    Current(book, identity, worker, epoch) && book[identity].state == Active
  }

  function WithState(book: Book, identity: Identity, state: LeaseState): Book
    requires identity in book
  {
    book[identity := book[identity].(state := state)]
  }

  predicate Lapsed(lease: Lease, now: nat) {
    lease.state == Active && lease.expires <= now
  }

  function Fence(lease: Lease, now: nat): Lease {
    if Lapsed(lease, now) then lease.(state := Fenced) else lease
  }

  function FenceLapsed(book: Book, now: nat): Book {
    map i | i in book :: Fence(book[i], now)
  }

  /** The leases a fencing pass over `ids` fences, in order. */
  function LapsedAmong(book: Book, ids: seq<Identity>, now: nat): seq<Lease> {
    if ids == [] then []
    else
      (if ids[0] in book && Lapsed(book[ids[0]], now) then [book[ids[0]].(state := Fenced)] else [])
      + LapsedAmong(book, ids[1..], now)
  }

  function Apply(book: Book, call: Call): (Book, Reply) {
    match call
    case Assign(identity, worker, now, lifetime) =>
      if !ValidLifetime(lifetime) || now + lifetime > U64_MAX then (book, Rejected(InvalidLifetime))
      else if identity in book && book[identity].state == Active && book[identity].expires > now then
        (book, Rejected(ActiveConflict))
      else if identity in book && book[identity].epoch >= U64_MAX then (book, Rejected(EpochOverflow))
      else
        var epoch := if identity in book then book[identity].epoch + 1 else 1;
        var lease := Lease(identity, worker, epoch, now + lifetime, Active, None);
        (book[identity := lease], Assigned(lease))
    case Renew(identity, worker, epoch, now, lifetime) =>
      if !ValidLifetime(lifetime) then (book, Rejected(InvalidLifetime))
      else if !Held(book, identity, worker, epoch) then (book, Rejected(StaleFence))
      else if book[identity].expires <= now then (WithState(book, identity, Fenced), Rejected(Expired))
      else if now + lifetime > U64_MAX then (book, Rejected(InvalidLifetime))
      else (book[identity := book[identity].(expires := now + lifetime)], Renewed(now + lifetime))
    case Complete(identity, worker, epoch, now, digest) =>
      if !ValidDigest(digest) then (book, Rejected(InvalidResult))
      else if !Current(book, identity, worker, epoch) then (book, Rejected(StaleFence))
      else if book[identity].state == Completed then
        (book, if book[identity].digest == Some(digest) then Accepted else Rejected(InvalidResult))
      else if book[identity].state != Active then (book, Rejected(StaleFence))
      else if book[identity].expires <= now then (WithState(book, identity, Fenced), Rejected(Expired))
      else (book[identity := book[identity].(state := Completed, digest := Some(digest))], Accepted)
    case Quarantine(identity, worker, epoch) =>
      if !Held(book, identity, worker, epoch) then (book, Rejected(StaleFence))
      else (WithState(book, identity, Quarantined), Accepted)
    case FenceExpired(now) =>
      (FenceLapsed(book, now), FencedLeases(LapsedAmong(book, SortedScoped(book.Keys), now)))
  }

  // ---------- Whole runs ----------

  /** The book after the first `n` calls. */
  ghost function After(calls: seq<Call>, n: nat): Book
    requires n <= |calls|
  {
    if n == 0 then map[] else Apply(After(calls, n - 1), calls[n - 1]).0
  }

  ghost function ReplyTo(calls: seq<Call>, n: nat): Reply
    requires n < |calls|
  {
    Apply(After(calls, n), calls[n]).1
  }

  ghost predicate LeaseOk(identity: Identity, lease: Lease) {
    && lease.identity == identity
    && 1 <= lease.epoch <= U64_MAX
    && lease.expires <= U64_MAX
    && (lease.digest.Some? <==> lease.state == Completed)
  }

  /** Leases only move forward: the epoch never falls, an epoch never changes hands, and a completed one
      keeps its result and never becomes anything else. */
  ghost predicate Advances(b: Book, c: Book) {
    forall i | i in b ::
      && i in c
      && b[i].epoch <= c[i].epoch
      && (b[i].epoch == c[i].epoch ==>
            && b[i].worker == c[i].worker
            && (b[i].state != Active ==> c[i].state == b[i].state && c[i].digest == b[i].digest))
  }

  ghost predicate BookOk(book: Book) {
    forall i | i in book :: LeaseOk(i, book[i])
  }

  lemma ApplyKeepsOk(book: Book, call: Call)
    requires BookOk(book)
    ensures BookOk(Apply(book, call).0)
  {
    hide LapsedAmong, SortedScoped, ValidDigest, ValidLifetime;
  }

  lemma FencingAdvances(book: Book, now: nat)
    ensures Advances(book, FenceLapsed(book, now))
  {
  }

  lemma ApplyAdvances(book: Book, call: Call)
    ensures Advances(book, Apply(book, call).0)
  {
    hide LapsedAmong, SortedScoped, ValidDigest, ValidLifetime, FenceLapsed;
    if call.FenceExpired? { FencingAdvances(book, call.now); }
  }

  lemma {:induction false} AfterOk(calls: seq<Call>, n: nat)
    requires n <= |calls|
    ensures BookOk(After(calls, n))
  {
    hide Apply;
    if n > 0 {
      AfterOk(calls, n - 1);
      ApplyKeepsOk(After(calls, n - 1), calls[n - 1]);
    }
  }

  lemma {:induction false} RunAdvances(calls: seq<Call>, m: nat, n: nat)
    requires m <= n <= |calls|
    ensures Advances(After(calls, m), After(calls, n))
  {
    hide Apply;
    if m < n {
      RunAdvances(calls, m, n - 1);
      ApplyAdvances(After(calls, n - 1), calls[n - 1]);
    }
  }

  predicate Succeeded(reply: Reply) {
    reply.Assigned? || reply.Renewed? || reply.Accepted?
  }

  predicate SucceededFor(call: Call, reply: Reply, identity: Identity) {
    Succeeded(reply) && !call.FenceExpired? && call.identity == identity
  }

  predicate AssignedTo(call: Call, reply: Reply, identity: Identity) {
    reply.Assigned? && call.Assign? && call.identity == identity
  }

  /** A successful call leaves its identity with the lease it names, and only then. */
  lemma SuccessIsCurrent(book: Book, call: Call)
    requires Succeeded(Apply(book, call).1)
    ensures !call.FenceExpired? && (Apply(book, call).1.Renewed? ==> call.Renew?)
    ensures var (after, reply) := Apply(book, call);
            && call.identity in after
            && after[call.identity].worker == call.worker
            && after[call.identity].epoch == (if call.Assign? then reply.lease.epoch else call.epoch)
            && (!call.Assign? ==> Current(book, call.identity, call.worker, call.epoch))
            && (reply.Assigned? || reply.Renewed? ==> after[call.identity].state == Active)
            && (reply.Assigned? ==>
                  && after[call.identity] == reply.lease
                  && reply.lease.expires == call.now + call.lifetime
                  && (call.identity in book ==> reply.lease.epoch == book[call.identity].epoch + 1))
            && (reply.Renewed? ==> after[call.identity].expires == reply.expires == call.now + call.lifetime)
            && (call.Quarantine? ==> after[call.identity].state == Quarantined)
            && (call.Complete? ==> after[call.identity].state == Completed && after[call.identity].digest == Some(call.digest))
  {
  }

  /** Epochs of one identity strictly increase over the whole run. */
  lemma EpochsIncrease(calls: seq<Call>, m: nat, n: nat)
    requires m < n < |calls|
    requires ReplyTo(calls, m).Assigned? && ReplyTo(calls, n).Assigned?
    requires calls[m].identity == calls[n].identity
    ensures ReplyTo(calls, m).lease.epoch < ReplyTo(calls, n).lease.epoch
  {
    hide Apply;
    SuccessIsCurrent(After(calls, m), calls[m]);
    RunAdvances(calls, m + 1, n);
    SuccessIsCurrent(After(calls, n), calls[n]);
  }

  /** Only an assignment to the same identity changes its worker or epoch. */
  lemma UntouchedByOthers(book: Book, call: Call, identity: Identity)
    requires identity in book && !AssignedTo(call, Apply(book, call).1, identity)
    ensures var after := Apply(book, call).0;
            identity in after && after[identity].epoch == book[identity].epoch && after[identity].worker == book[identity].worker
  {
    hide LapsedAmong, SortedScoped, ValidDigest, ValidLifetime;
  }

  lemma {:induction false} SameEpochUntilReassigned(calls: seq<Call>, m: nat, n: nat)
    requires m < n <= |calls|
    requires ReplyTo(calls, m).Assigned?
    requires forall k | m < k < n :: !AssignedTo(calls[k], ReplyTo(calls, k), calls[m].identity)
    ensures var i := calls[m].identity;
            && i in After(calls, n)
            && After(calls, n)[i].epoch == ReplyTo(calls, m).lease.epoch
            && After(calls, n)[i].worker == calls[m].worker
  {
    hide Apply;
    SuccessIsCurrent(After(calls, m), calls[m]);
    if m + 1 < n {
      SameEpochUntilReassigned(calls, m, n - 1);
      assert !AssignedTo(calls[n - 1], ReplyTo(calls, n - 1), calls[m].identity);
      UntouchedByOthers(After(calls, n - 1), calls[n - 1], calls[m].identity);
    }
  }

  /** Renewing, completing and quarantining succeed only for the latest assignment of the identity. */
  lemma OnlyLatestAssignment(calls: seq<Call>, m: nat, n: nat)
    requires m < n < |calls|
    requires ReplyTo(calls, m).Assigned?
    requires forall k | m < k < n :: !AssignedTo(calls[k], ReplyTo(calls, k), calls[m].identity)
    requires !calls[n].Assign? && SucceededFor(calls[n], ReplyTo(calls, n), calls[m].identity)
    ensures calls[n].worker == calls[m].worker && calls[n].epoch == ReplyTo(calls, m).lease.epoch
  {
    hide Apply;
    SameEpochUntilReassigned(calls, m, n);
    SuccessIsCurrent(After(calls, n), calls[n]);
  }

  /** An epoch of an identity accepts one result digest, ever. */
  lemma OneResultPerEpoch(calls: seq<Call>, m: nat, n: nat)
    requires m < n < |calls| && calls[m].Complete? && calls[n].Complete?
    requires ReplyTo(calls, m).Accepted? && ReplyTo(calls, n).Accepted?
    requires calls[m].identity == calls[n].identity && calls[m].epoch == calls[n].epoch
    ensures calls[m].digest == calls[n].digest && calls[m].worker == calls[n].worker
  {
    hide Apply;
    SuccessIsCurrent(After(calls, m), calls[m]);
    SuccessIsCurrent(After(calls, n), calls[n]);
    RunAdvances(calls, m + 1, n + 1);
  }

  /** The times passed to the calls never go back. */
  ghost predicate Clocked(calls: seq<Call>) {
    forall j, k | 0 <= j < k < |calls| && !calls[j].Quarantine? && !calls[k].Quarantine? :: calls[j].now <= calls[k].now
  }

  ghost predicate TimePassed(calls: seq<Call>, m: nat, n: nat, expires: nat)
    requires n <= |calls|
  {
    exists k | m < k < n :: !calls[k].Quarantine? && expires <= calls[k].now
  }

  /** Calls that do not succeed for an identity can do no more to its active lease than fence it once it lapsed. */
  lemma OnlyLapsedIsFenced(book: Book, call: Call, identity: Identity)
    requires identity in book && !SucceededFor(call, Apply(book, call).1, identity)
    requires book[identity].state == Active || book[identity].state == Fenced
    ensures identity in Apply(book, call).0
    ensures var lease := Apply(book, call).0[identity];
            || lease == book[identity]
            || (!call.Quarantine? && book[identity].expires <= call.now && lease == book[identity].(state := Fenced))
  {
  }

  lemma {:induction false} HeldUntilExpiry(calls: seq<Call>, m: nat, n: nat, identity: Identity, expires: nat)
    requires m < n <= |calls| && Clocked(calls)
    requires identity in After(calls, m + 1)
    requires After(calls, m + 1)[identity].state == Active && After(calls, m + 1)[identity].expires == expires
    requires forall k | m < k < n :: !SucceededFor(calls[k], ReplyTo(calls, k), identity)
    ensures identity in After(calls, n)
    ensures var lease := After(calls, n)[identity];
            && lease.expires == expires
            && (lease.state == Active || (lease.state == Fenced && TimePassed(calls, m, n, expires)))
  {
    hide Apply;
    if m + 1 < n {
      HeldUntilExpiry(calls, m, n - 1, identity, expires);
      assert !SucceededFor(calls[n - 1], ReplyTo(calls, n - 1), identity);
      OnlyLapsedIsFenced(After(calls, n - 1), calls[n - 1], identity);
      if k :| m < k < n - 1 && !calls[k].Quarantine? && expires <= calls[k].now {
        assert TimePassed(calls, m, n, expires);
      }
    }
  }

  /** No assignment overtakes a lease: once a lease has been granted or renewed up to a time, the identity is not
      assigned again before that time unless the holder itself renewed, completed or was quarantined. */
  lemma NoOvertaking(calls: seq<Call>, m: nat, n: nat)
    requires m < n < |calls| && Clocked(calls)
    requires ReplyTo(calls, m).Assigned? || ReplyTo(calls, m).Renewed?
    requires ReplyTo(calls, n).Assigned? && calls[n].identity == calls[m].identity
    requires forall k | m < k < n :: !SucceededFor(calls[k], ReplyTo(calls, k), calls[m].identity)
    ensures (if ReplyTo(calls, m).Assigned? then ReplyTo(calls, m).lease.expires else ReplyTo(calls, m).expires) <= calls[n].now
  {
    hide Apply;
    SuccessIsCurrent(After(calls, m), calls[m]);
    var i := calls[m].identity;
    var expires := After(calls, m + 1)[i].expires;
    HeldUntilExpiry(calls, m, n, i, expires);
    AssignedOnlyWhenFree(After(calls, n), calls[n]);
    if After(calls, n)[i].state == Fenced {
      var k :| m < k < n && !calls[k].Quarantine? && expires <= calls[k].now;
    }
  }

  lemma AssignedOnlyWhenFree(book: Book, call: Call)
    requires Apply(book, call).1.Assigned?
    ensures call.Assign? && (call.identity in book ==> book[call.identity].state != Active || book[call.identity].expires <= call.now)
  {
  }

  /** A rejected call changes nothing, except that it fences the very lease it found expired. */
  lemma RejectionIsQuiet(book: Book, call: Call)
    requires Apply(book, call).1.Rejected?
    ensures var (after, reply) := Apply(book, call);
            if reply.reason == Expired then
              && !call.Quarantine? && !call.FenceExpired?
              && call.identity in book && Lapsed(book[call.identity], call.now)
              && after == WithState(book, call.identity, Fenced)
            else after == book
  {
  }

  // ---------- The book as an object ----------

  class LeaseBook {
    var leases: Book

    constructor ()
      ensures leases == map[]
    {
      leases := map[];
    }

    method Assign(identity: Identity, worker: string, now: nat, lifetime: nat) returns (r: Result<Lease, Rejection>)
      modifies this
      ensures (leases, if r.Ok? then Assigned(r.value) else Rejected(r.error))
              == Apply(old(leases), Call.Assign(identity, worker, now, lifetime))
    {
      if lifetime == 0 || lifetime > MAXIMUM_LEASE_MILLIS {
        return Err(InvalidLifetime);
      }
      if now + lifetime > U64_MAX {
        return Err(InvalidLifetime);
      }
      var epoch := 1;
      if identity in leases {
        var current := leases[identity];
        if current.state == Active && current.expires > now {
          return Err(ActiveConflict);
        }
        if current.epoch >= U64_MAX {
          return Err(EpochOverflow);
        }
        epoch := current.epoch + 1;
      }
      var lease := Lease(identity, worker, epoch, now + lifetime, Active, None);
      leases := leases[identity := lease];
      return Ok(lease);
    }

    method Renew(identity: Identity, worker: string, epoch: nat, now: nat, lifetime: nat) returns (r: Result<nat, Rejection>)
      modifies this
      ensures (leases, if r.Ok? then Renewed(r.value) else Rejected(r.error))
              == Apply(old(leases), Call.Renew(identity, worker, epoch, now, lifetime))
    {
      if lifetime == 0 || lifetime > MAXIMUM_LEASE_MILLIS {
        return Err(InvalidLifetime);
      }
      if !Held(leases, identity, worker, epoch) {
        return Err(StaleFence);
      }
      var lease := leases[identity];
      if lease.expires <= now {
        leases := leases[identity := lease.(state := Fenced)];
        return Err(Expired);
      }
      if now + lifetime > U64_MAX {
        return Err(InvalidLifetime);
      }
      leases := leases[identity := lease.(expires := now + lifetime)];
      return Ok(now + lifetime);
    }

    method Complete(identity: Identity, worker: string, epoch: nat, now: nat, digest: string) returns (r: Result<(), Rejection>)
      modifies this
      ensures (leases, if r.Ok? then Accepted else Rejected(r.error))
              == Apply(old(leases), Call.Complete(identity, worker, epoch, now, digest))
    {
      if !ValidDigest(digest) {
        return Err(InvalidResult);
      }
      if !Current(leases, identity, worker, epoch) {
        return Err(StaleFence);
      }
      var lease := leases[identity];
      if lease.state == Completed {
        return if lease.digest == Some(digest) then Ok(()) else Err(InvalidResult);
      }
      if lease.state != Active {
        return Err(StaleFence);
      }
      if lease.expires <= now {
        leases := leases[identity := lease.(state := Fenced)];
        return Err(Expired);
      }
      leases := leases[identity := lease.(state := Completed, digest := Some(digest))];
      return Ok(());
    }

    method Quarantine(identity: Identity, worker: string, epoch: nat) returns (r: Result<(), Rejection>)
      modifies this
      ensures (leases, if r.Ok? then Accepted else Rejected(r.error))
              == Apply(old(leases), Call.Quarantine(identity, worker, epoch))
    {
      if !Held(leases, identity, worker, epoch) {
        return Err(StaleFence);
      }
      leases := leases[identity := leases[identity].(state := Quarantined)];
      return Ok(());
    }

    /** Fences every lapsed lease, visiting the identities in order. */
    method FenceExpired(now: nat) returns (fenced: seq<Lease>)
      modifies this
      ensures (leases, FencedLeases(fenced)) == Apply(old(leases), Call.FenceExpired(now))
    {
      hide SortedScoped, Increasing, LapsedAmong, FenceLapsed, FencedFirst;
      ghost var book := leases;
      var ids := SortedScoped(leases.Keys);
      fenced := [];
      NoneFenced(book, ids, now);
      var k := 0;
      while k < |ids|
        invariant 0 <= k <= |ids| && leases == FencedFirst(book, ids, k, now)
        invariant fenced == LapsedAmong(book, ids[..k], now)
      {
        OneFenced(book, ids, k, now);
        var lease := leases[ids[k]];
        if lease.state == Active && lease.expires <= now {
          leases := leases[ids[k] := lease.(state := Fenced)];
          fenced := fenced + [lease.(state := Fenced)];
        }
        k := k + 1;
      }
      AllFenced(book, ids, now);
    }
  }

  /** The book with the lapsed among the first `k` leases fenced. */
  function FencedFirst(book: Book, ids: seq<Identity>, k: nat, now: nat): Book
    requires k <= |ids|
  {
    map i | i in book :: if i in ids[..k] then Fence(book[i], now) else book[i]
  }

  lemma NoneFenced(book: Book, ids: seq<Identity>, now: nat)
    ensures FencedFirst(book, ids, 0, now) == book && LapsedAmong(book, ids[..0], now) == []
  {
  }

  lemma OneFenced(book: Book, ids: seq<Identity>, k: nat, now: nat)
    requires k < |ids| && NoDuplicates(ids) && forall i :: i in ids <==> i in book
    ensures ids[k] in book
    ensures var first, id := FencedFirst(book, ids, k, now), ids[k];
            && id in first && first[id] == book[id]
            && FencedFirst(book, ids, k + 1, now) ==
               (if Lapsed(book[id], now) then first[id := book[id].(state := Fenced)] else first)
            && LapsedAmong(book, ids[..k + 1], now) ==
               LapsedAmong(book, ids[..k], now) + (if Lapsed(book[id], now) then [book[id].(state := Fenced)] else [])
  {
    hide LapsedAmong;
    var id := ids[k];
    assert id in ids && ids[..k + 1] == ids[..k] + [id] && id !in ids[..k];
    LapsedAmongAppend(book, ids[..k], id, now);
    var first, next := FencedFirst(book, ids, k, now), FencedFirst(book, ids, k + 1, now);
    assert next == first[id := Fence(book[id], now)];
    assert first[id := book[id]] == first;
  }

  lemma AllFenced(book: Book, ids: seq<Identity>, now: nat)
    requires forall i :: i in ids <==> i in book
    ensures FencedFirst(book, ids, |ids|, now) == FenceLapsed(book, now) && ids[..|ids|] == ids
  {
    assert ids[..|ids|] == ids;
  }

  lemma {:induction false} LapsedAmongAppend(book: Book, ids: seq<Identity>, id: Identity, now: nat)
    requires id in book
    ensures LapsedAmong(book, ids + [id], now) ==
            LapsedAmong(book, ids, now) + if Lapsed(book[id], now) then [book[id].(state := Fenced)] else []
  {
    if ids == [] {
      assert [] + [id] == [id] && [id][1..] == [];
    } else {
      assert (ids + [id])[1..] == ids[1..] + [id];
      LapsedAmongAppend(book, ids[1..], id, now);
    }
  }
}
