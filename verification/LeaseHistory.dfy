/** The lease book seen from outside: what every call is answered, given only the calls made before it and their
    answers. */
module LeaseHistory {
  import opened Orders
  import opened Outcomes
  import opened Numbers
  import opened LeaseBooks

  /** How an identity stands: never assigned; held by a worker up to a time; or no longer held, with the result that was
      accepted for its last assignment, if one was. */
  datatype Standing =
    | Free
    | Holder(worker: string, epoch: nat, until: nat)
    | Settled(worker: string, epoch: nat, result: Option<string>)

  /** A granted or renewed lease runs for the lifetime asked for. It ends by a result, a quarantine, a fencing pass once it
      has run out, or the refusal of a call by its holder for that reason. */
  function Moved(s: Standing, call: Call, reply: Reply, identity: Identity): Standing {
    if call.FenceExpired? then
      if s.Holder? && s.until <= call.now then Settled(s.worker, s.epoch, None) else s
    else if call.identity != identity then s
    else if call.Assign? && reply.Assigned? then Holder(call.worker, reply.lease.epoch, call.now + call.lifetime)
    else if call.Renew? && reply.Renewed? && s.Holder? then s.(until := call.now + call.lifetime)
    else if call.Complete? && reply.Accepted? then Settled(call.worker, call.epoch, Some(call.digest))
    else if call.Quarantine? && reply.Accepted? then Settled(call.worker, call.epoch, None)
    else if reply == Rejected(Expired) && s.Holder? then Settled(s.worker, s.epoch, None)
    else s
  }

  ghost function StandingOf(calls: seq<Call>, n: nat, identity: Identity): Standing
    requires n <= |calls|
  {
    if n == 0 then Free
    else Moved(StandingOf(calls, n - 1, identity), calls[n - 1], ReplyTo(calls, n - 1), identity)
  }

  // ---------- The book is what the history says ----------

  ghost predicate Agrees(s: Standing, book: Book, identity: Identity) {
    match s
    case Free => identity !in book
    case Holder(worker, epoch, until) => identity in book && book[identity] == Lease(identity, worker, epoch, until, Active, None)
    case Settled(worker, epoch, result) =>
      && identity in book && book[identity].worker == worker && book[identity].epoch == epoch
      && book[identity].state != Active && book[identity].digest == result
  }

  lemma MovedAgrees(s: Standing, book: Book, call: Call, identity: Identity)
    requires Agrees(s, book, identity) && BookOk(book)
    ensures var (after, reply) := Apply(book, call); Agrees(Moved(s, call, reply, identity), after, identity)
  {
    hide LapsedAmong, SortedScoped, ValidDigest;
    assert identity in book ==> LeaseOk(identity, book[identity]);
  }

  lemma {:induction false} HistoryAgrees(calls: seq<Call>, n: nat, identity: Identity)
    requires n <= |calls|
    ensures Agrees(StandingOf(calls, n, identity), After(calls, n), identity)
    ensures BookOk(After(calls, n))
  {
    hide Apply, Moved, Agrees;
    AfterOk(calls, n);
    if n == 0 {
      EmptyAgrees(identity);
    } else {
      HistoryAgrees(calls, n - 1, identity);
      MovedAgrees(StandingOf(calls, n - 1, identity), After(calls, n - 1), calls[n - 1], identity);
    }
  }

  lemma EmptyAgrees(identity: Identity)
    ensures Agrees(Free, map[], identity)
  {
  }

  // ---------- The answers ----------

  predicate Lasts(now: nat, lifetime: nat) {
    0 < lifetime <= 5 * 60 * 1_000 && now + lifetime <= U64_MAX
  }

  /** An assignment is refused while a lease runs; otherwise it is granted for the lifetime asked for, with the next
      epoch. */
  lemma AssignAnswered(calls: seq<Call>, n: nat)
    requires n < |calls| && calls[n].Assign?
    ensures var c, r := calls[n], ReplyTo(calls, n);
            var s := StandingOf(calls, n, c.identity);
            var running, spent := s.Holder? && c.now < s.until, !s.Free? && s.epoch == U64_MAX;
            && (r.Assigned? <==> Lasts(c.now, c.lifetime) && !running && !spent)
            && (r.Assigned? ==> r.lease == Lease(c.identity, c.worker, if s.Free? then 1 else s.epoch + 1,
                                                 c.now + c.lifetime, Active, None))
            && (r == Rejected(InvalidLifetime) <==> !Lasts(c.now, c.lifetime))
            && (r == Rejected(ActiveConflict) <==> Lasts(c.now, c.lifetime) && running)
            && (r == Rejected(EpochOverflow) <==> Lasts(c.now, c.lifetime) && !running && spent)
  {
    HistoryAgrees(calls, n, calls[n].identity);
  }

  lemma RenewOn(book: Book, c: Call)
    requires c.Renew?
    ensures var r := Apply(book, c).1;
            var held := Held(book, c.identity, c.worker, c.epoch);
            && (!ValidLifetime(c.lifetime) ==> r == Rejected(InvalidLifetime))
            && (ValidLifetime(c.lifetime) && !held ==> r == Rejected(StaleFence))
            && (ValidLifetime(c.lifetime) && held ==>
                  var expires := book[c.identity].expires;
                  && (expires <= c.now ==> r == Rejected(Expired))
                  && (c.now < expires && c.now + c.lifetime > U64_MAX ==> r == Rejected(InvalidLifetime))
                  && (c.now < expires && c.now + c.lifetime <= U64_MAX ==> r == Renewed(c.now + c.lifetime)))
  {
  }

  /** A renewal is granted if and only if its caller holds the latest assignment, whose lease has not run out; it then runs
      for the new lifetime from now. */
  lemma RenewAnswered(calls: seq<Call>, n: nat)
    requires n < |calls| && calls[n].Renew?
    ensures var c, r := calls[n], ReplyTo(calls, n);
            var s := StandingOf(calls, n, c.identity);
            var holds, valid := s.Holder? && s.worker == c.worker && s.epoch == c.epoch, ValidLifetime(c.lifetime);
            && (r.Renewed? <==> Lasts(c.now, c.lifetime) && holds && c.now < s.until)
            && (r.Renewed? ==> r.expires == c.now + c.lifetime)
            && (r == Rejected(StaleFence) <==> valid && !holds)
            && (r == Rejected(Expired) <==> valid && holds && s.until <= c.now)
            && (r == Rejected(InvalidLifetime) <==> !valid || (holds && c.now < s.until && !Lasts(c.now, c.lifetime)))
  {
    hide Apply, StandingOf, After, LapsedAmong, SortedScoped, FenceLapsed, ValidDigest;
    HistoryAgrees(calls, n, calls[n].identity);
    RenewOn(After(calls, n), calls[n]);
  }

  /** A result is accepted from the holder of a lease that has not run out, and again if it is the accepted one. */
  lemma CompleteAnswered(calls: seq<Call>, n: nat)
    requires n < |calls| && calls[n].Complete?
    ensures var c, r := calls[n], ReplyTo(calls, n);
            var s := StandingOf(calls, n, c.identity);
            var latest := !s.Free? && s.worker == c.worker && s.epoch == c.epoch;
            var done := latest && s.Settled? && s.result.Some?;
            && (r == Accepted <==>
                  && ValidDigest(c.digest) && latest
                  && if done then s.result == Some(c.digest) else s.Holder? && c.now < s.until)
            && (r == Rejected(InvalidResult) <==> !ValidDigest(c.digest) || (done && s.result != Some(c.digest)))
            && (r == Rejected(Expired) <==> ValidDigest(c.digest) && latest && s.Holder? && s.until <= c.now)
            && (r == Rejected(StaleFence) <==> ValidDigest(c.digest) && !(latest && s.Holder?) && !done)
  {
    hide ValidDigest;
    HistoryAgrees(calls, n, calls[n].identity);
    assert calls[n].identity in After(calls, n) ==> LeaseOk(calls[n].identity, After(calls, n)[calls[n].identity]);
  }

  /** A quarantine is accepted from the holder, and ends the lease. */
  lemma QuarantineAnswered(calls: seq<Call>, n: nat)
    requires n < |calls| && calls[n].Quarantine?
    ensures var c, r := calls[n], ReplyTo(calls, n);
            var s := StandingOf(calls, n, c.identity);
            && r == (if s.Holder? && s.worker == c.worker && s.epoch == c.epoch then Accepted else Rejected(StaleFence))
            && (r == Accepted ==> After(calls, n + 1)[c.identity].state == Quarantined)
  {
    HistoryAgrees(calls, n, calls[n].identity);
  }

  /** A fencing pass reports exactly the leases that have run out, each once. */
  lemma FencingAnswered(calls: seq<Call>, n: nat, lease: Lease)
    requires n < |calls| && calls[n].FenceExpired?
    ensures var r := ReplyTo(calls, n);
            && r.FencedLeases?
            && (lease in r.leases <==>
                  && StandingOf(calls, n, lease.identity) == Holder(lease.worker, lease.epoch, lease.expires)
                  && lease.expires <= calls[n].now && lease.state == Fenced && lease.digest.None?)
            && multiset(r.leases)[lease] <= 1
  {
    HistoryAgrees(calls, n, lease.identity);
    var book, now := After(calls, n), calls[n].now;
    LapsedOnce(book, SortedScoped(book.Keys), now, lease);
  }

  lemma {:induction false} LapsedOnce(book: Book, ids: seq<Identity>, now: nat, lease: Lease)
    requires BookOk(book) && NoDuplicates(ids)
    ensures multiset(LapsedAmong(book, ids, now))[lease] ==
            if lease.identity in ids && lease.identity in book && Lapsed(book[lease.identity], now)
               && lease == book[lease.identity].(state := Fenced) then 1 else 0
  {
    if ids != [] {
      assert ids == [ids[0]] + ids[1..];
      LapsedOnce(book, ids[1..], now, lease);
      var first := if ids[0] in book && Lapsed(book[ids[0]], now) then [book[ids[0]].(state := Fenced)] else [];
      assert multiset(LapsedAmong(book, ids, now)) == multiset(first) + multiset(LapsedAmong(book, ids[1..], now));
      assert ids[0] in book ==> LeaseOk(ids[0], book[ids[0]]);
    }
  }

  /** Nothing but its holder and the time can end a lease. */
  lemma {:induction false} StandsUntil(calls: seq<Call>, m: nat, n: nat, identity: Identity)
    requires m < n <= |calls| && StandingOf(calls, m + 1, identity).Holder?
    requires forall k | m < k < n :: !SucceededFor(calls[k], ReplyTo(calls, k), identity)
    ensures var s, t := StandingOf(calls, m + 1, identity), StandingOf(calls, n, identity);
            t == s || (t.Settled? && TimePassed(calls, m, n, s.until))
  {
    hide Apply, Agrees;
    if m + 1 < n {
      StandsUntil(calls, m, n - 1, identity);
      var s, t, call := StandingOf(calls, m + 1, identity), StandingOf(calls, n - 1, identity), calls[n - 1];
      assert !SucceededFor(call, ReplyTo(calls, n - 1), identity);
      if t == s {
        HistoryAgrees(calls, n - 1, identity);
        if ReplyTo(calls, n - 1) == Rejected(Expired) { ExpiredAtHolder(t, After(calls, n - 1), call); }
      } else {
        var k :| m < k < n - 1 && !calls[k].Quarantine? && s.until <= calls[k].now;
        assert TimePassed(calls, m, n, s.until);
      }
    }
  }

  lemma ExpiredAtHolder(s: Standing, book: Book, call: Call)
    requires Apply(book, call).1 == Rejected(Expired)
    ensures !call.Quarantine? && !call.FenceExpired?
    ensures s.Holder? && Agrees(s, book, call.identity) ==> s.until <= call.now
  {
  }

  /** With a clock that does not go back, a lease keeps others away for exactly the lifetime asked for, when granted or last
      renewed, unless its holder completes or is quarantined. */
  lemma LeaseRuns(calls: seq<Call>, m: nat, n: nat)
    requires m < n < |calls| && Clocked(calls) && (ReplyTo(calls, m).Assigned? || ReplyTo(calls, m).Renewed?)
    requires calls[n].Assign? && calls[n].identity == calls[m].identity && Lasts(calls[n].now, calls[n].lifetime)
    requires forall k | m < k < n :: !SucceededFor(calls[k], ReplyTo(calls, k), calls[m].identity)
    ensures !calls[m].Quarantine? && !calls[m].FenceExpired? && !calls[m].Complete?
    ensures ReplyTo(calls, n) == Rejected(ActiveConflict) <==> calls[n].now < calls[m].now + calls[m].lifetime
  {
    hide Apply;
    SuccessIsCurrent(After(calls, m), calls[m]);
    ReplyKinds(After(calls, m), calls[m]);
    if calls[m].Renew? { RenewAnswered(calls, m); }
    StandsUntil(calls, m, n, calls[m].identity);
    AssignAnswered(calls, n);
  }

  lemma ReplyKinds(book: Book, call: Call)
    ensures Apply(book, call).1.Assigned? ==> call.Assign?
    ensures Apply(book, call).1.Renewed? ==> call.Renew?
  {
  }

  /** A digest is valid if and only if it is the prefix and 64 lower-case hexadecimal digits. */
  lemma DigestsAre(value: string)
    ensures ValidDigest(value) <==>
            exists hex: string :: value == "sha256:" + hex && |hex| == 64 && forall c | c in hex :: c in "0123456789abcdef"
  {
    if ValidDigest(value) {
      var hex := value[7..];
      assert value == value[..7] + hex;
      forall c | c in hex ensures c in "0123456789abcdef" {
        var i :| 0 <= i < 64 && hex[i] == c;
        assert value[i + 7] == c;
        HexDigit(c);
      }
    }
    if hex: string :| value == "sha256:" + hex && |hex| == 64 && forall c | c in hex :: c in "0123456789abcdef" {
      assert value[..7] == "sha256:";
      forall i | 7 <= i < 71 ensures '0' <= value[i] <= '9' || 'a' <= value[i] <= 'f' {
        assert value[i] == hex[i - 7] && hex[i - 7] in hex;
        HexDigit(value[i]);
      }
    }
  }

  lemma HexDigit(c: char)
    ensures c in "0123456789abcdef" <==> '0' <= c <= '9' || 'a' <= c <= 'f'
  {
    var digits := "0123456789abcdef";
    if '0' <= c <= '9' { assert digits[c as int - '0' as int] == c; }
    if 'a' <= c <= 'f' { assert digits[c as int - 'a' as int + 10] == c; }
  }
}
