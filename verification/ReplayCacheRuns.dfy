/** At-most-once nonces: every interleaving of consumption, writes, returns and crashes, under a clock that does not
    go back. */
module ReplayCacheRuns {
  import opened Outcomes
  import opened Journals
  import opened ReplayCaches

  /** A consumption that has logged its record; `at` is the time it was made, `due` what it waits for. */
  datatype Use = Use(serial: nat, key: Key, expires: Millis, at: nat, due: nat)

  datatype System = System(cache: Cache, clock: nat, serial: nat, pending: set<Use>, returned: set<Use>)

  datatype Step =
    | Consume(key: Key, expires: Millis, now: nat)
    | Flush(commands: nat)
    | Return(used: Use)
    | Crash(commands: nat, now: nat)

  /** A restart needs a file that loads; whether it does is the question. */
  predicate Enabled(s: System, step: Step) {
    match step
    case Consume(key, expires, now) => s.clock <= now
    case Flush(n) => n <= |s.cache.journal.queue|
    case Return(p) => p in s.pending && p.due <= s.cache.journal.written
    case Crash(n, now) => s.clock <= now && n <= |s.cache.journal.queue| && Loadable(After(s.cache.journal, n), now)
  }

  function Next(s: System, step: Step): System
    requires Enabled(s, step)
  {
    match step
    case Consume(key, expires, now) =>
      var (cache, outcome) := ConsumeOn(s.cache, key, expires, now);
      if outcome.Err? then s.(cache := cache, clock := now)
      else
        var due := cache.journal.written + |cache.journal.queue|;
        System(cache, now, s.serial + 1, s.pending + {Use(s.serial, key, expires, now, due)}, s.returned)
    case Flush(n) => s.(cache := s.cache.(journal := Advance(s.cache.journal, n)))
    case Return(p) => s.(pending := s.pending - {p}, returned := s.returned + {p})
    case Crash(n, now) => s.(cache := Open(After(s.cache.journal, n), now), clock := now, pending := {})
  }

  function Start(now: nat): System {
    System(Open([], now), now, 0, {}, {})
  }

  ghost predicate Run(states: seq<System>, steps: seq<Step>, now: nat) {
    && |states| == |steps| + 1
    && states[0] == Start(now)
    && forall i | 0 <= i < |steps| :: Enabled(states[i], steps[i]) && states[i + 1] == Next(states[i], steps[i])
  }

  // ---------- Invariants ----------

  ghost predicate FileOk(file: seq<Record>, clock: nat) {
    && |file| <= MAXIMUM_RECOVERY_RECORDS
    && Live(file, clock).Some? && |Live(file, clock).value| <= MAXIMUM_LIVE_NONCES
  }

  ghost predicate FilesOk(j: Journal<Record>, clock: nat) {
    forall n: nat | n <= |j.queue| :: FileOk(After(j, n), clock)
  }

  /** `p` is still held against reuse in `file`, unless it has expired. */
  ghost predicate Remembered(file: seq<Record>, clock: nat, p: Use) {
    p.expires > clock && Live(file, clock).Some? ==>
      p.key in Live(file, clock).value && Live(file, clock).value[p.key] == p.expires
  }

  ghost predicate Durable(j: Journal<Record>, clock: nat, p: Use) {
    forall n: nat | n <= |j.queue| && p.due <= j.written + n :: Remembered(After(j, n), clock, p)
  }

  ghost predicate CacheOk(c: Cache, clock: nat) {
    && |c.entries| <= MAXIMUM_LIVE_NONCES
    && Live(Latest(c.journal), clock) == Some(Retain(c.entries, clock))
    && |Latest(c.journal)| <= MAXIMUM_LIVE_NONCES + c.appends
    && c.appends < COMPACTION_INTERVAL
    && FilesOk(c.journal, clock)
  }

  ghost predicate UsesOk(s: System) {
    && s.pending !! s.returned
    && (forall p | p in s.pending + s.returned :: p.serial < s.serial)
    && (forall p, q | p in s.pending + s.returned && q in s.pending + s.returned
          && p.key == q.key && p.serial < q.serial :: p.expires <= q.at)
  }

  ghost predicate UsesDurable(s: System) {
    var j := s.cache.journal;
    && (forall p | p in s.pending :: p.due <= j.written + |j.queue| && Durable(j, s.clock, p))
    && (forall p | p in s.returned :: Durable(j, s.clock, p.(due := 0)))
  }

  ghost predicate SystemOk(s: System) {
    CacheOk(s.cache, s.clock) && UsesOk(s) && UsesDurable(s)
  }

  // ---------- The clock ----------

  lemma FileLater(file: seq<Record>, now: nat, later: nat)
    requires FileOk(file, now) && now <= later
    ensures FileOk(file, later) && Live(file, later).value == Retain(Live(file, now).value, later)
  {
    hide Live;
    LiveLater(file, now, later);
    RetainFacts(Live(file, now).value, later);
  }

  lemma DurableLater(j: Journal<Record>, now: nat, later: nat, p: Use)
    requires FilesOk(j, now) && now <= later && Durable(j, now, p)
    ensures Durable(j, later, p)
  {
    hide Live, After;
    forall n: nat | n <= |j.queue| && p.due <= j.written + n ensures Remembered(After(j, n), later, p) {
      FileLater(After(j, n), now, later);
      assert Remembered(After(j, n), now, p);
    }
  }

  /** Time passes, and the expired nonces are dropped from memory. */
  lemma PruneOk(c: Cache, now: nat, later: nat)
    requires CacheOk(c, now) && now <= later
    ensures CacheOk(c.(entries := Retain(c.entries, later)), later)
  {
    hide Live, After;
    RetainFacts(c.entries, now);
    RetainFacts(c.entries, later);
    FileLater(Latest(c.journal), now, later);
    forall n: nat | n <= |c.journal.queue| ensures FileOk(After(c.journal, n), later) { FileLater(After(c.journal, n), now, later); }
  }

  // ---------- The queue ----------

  lemma EnqueueOk(j: Journal<Record>, command: Command<Record>, clock: nat)
    requires FilesOk(j, clock) && FileOk(Write(Latest(j), command), clock)
    ensures FilesOk(Enqueue(j, command), clock)
  {
    hide FileOk, Write, After;
    var k := Enqueue(j, command);
    forall n: nat | n <= |k.queue| ensures FileOk(After(k, n), clock) {
      if n <= |j.queue| { AfterEnqueue(j, command, n); } else { AfterEnqueue(j, command, 0); }
    }
  }

  lemma EnqueueDurable(j: Journal<Record>, command: Command<Record>, clock: nat, p: Use)
    requires Durable(j, clock, p) && Remembered(Write(Latest(j), command), clock, p)
    ensures Durable(Enqueue(j, command), clock, p)
  {
    hide Remembered, Write, After;
    var k := Enqueue(j, command);
    forall n: nat | n <= |k.queue| && p.due <= k.written + n ensures Remembered(After(k, n), clock, p) {
      if n <= |j.queue| {
        AfterEnqueue(j, command, n);
        assert Remembered(After(j, n), clock, p);
      } else {
        AfterEnqueue(j, command, 0);
        assert After(k, n) == Latest(k);
      }
    }
  }

  lemma CompactOk(c: Cache, clock: nat)
    requires |c.entries| <= MAXIMUM_LIVE_NONCES && FilesOk(c.journal, clock)
    ensures CacheOk(Compact(c), clock)
  {
    hide Live, After, Compacted, FilesOk;
    CompactedLive(c.entries, clock);
    RetainFacts(c.entries, clock);
    EnqueueOk(c.journal, Replace(Compacted(c.entries)), clock);
    AfterEnqueue(c.journal, Replace(Compacted(c.entries)), 0);
  }

  lemma CompactDurable(c: Cache, clock: nat, p: Use)
    requires Durable(c.journal, clock, p)
    requires p.expires > clock ==> p.key in c.entries && c.entries[p.key] == p.expires
    ensures Durable(Compact(c).journal, clock, p)
  {
    hide Live, After, Compacted, Durable;
    CompactedLive(c.entries, clock);
    EnqueueDurable(c.journal, Replace(Compacted(c.entries)), clock, p);
  }

  lemma LiveAppend(records: seq<Record>, r: Record, now: nat)
    requires Live(records, now).Some? && r.key !in Live(records, now).value
    ensures Live(records + [r], now) ==
            Some(if r.expires > now then Live(records, now).value[r.key := r.expires] else Live(records, now).value)
  {
    assert (records + [r])[..|records|] == records;
  }

  /** A cache whose expired nonces have just been dropped, with room for one that is not live. */
  ghost predicate Ready(c: Cache, r: Record, clock: nat) {
    && CacheOk(c, clock) && Retain(c.entries, clock) == c.entries
    && r.key !in c.entries && |c.entries| < MAXIMUM_LIVE_NONCES
  }

  function Appended(c: Cache, r: Record): Cache {
    Cache(c.entries[r.key := r.expires], c.appends + 1, Enqueue(c.journal, Append(r)))
  }

  lemma AppendOk(c: Cache, r: Record, clock: nat)
    requires Ready(c, r, clock)
    ensures var a := Appended(c, r);
            && |a.entries| <= MAXIMUM_LIVE_NONCES
            && Live(Latest(a.journal), clock) == Some(Retain(a.entries, clock))
            && |Latest(a.journal)| <= MAXIMUM_LIVE_NONCES + a.appends
            && FilesOk(a.journal, clock)
  {
    hide Live, After, FilesOk;
    LiveAppend(Latest(c.journal), r, clock);
    RetainUpdate(c.entries, r.key, r.expires, clock);
    AfterEnqueue(c.journal, Append(r), 0);
    var entries := c.entries[r.key := r.expires];
    assert entries.Keys == c.entries.Keys + {r.key};
    assert |entries.Keys| == |entries| && |c.entries.Keys| == |c.entries|;
    EnqueueOk(c.journal, Append(r), clock);
  }

  lemma LogOk(c: Cache, r: Record, clock: nat)
    requires Ready(c, r, clock)
    ensures CacheOk(Log(c, r), clock)
  {
    hide Live, After, FilesOk, Compact;
    AppendOk(c, r, clock);
    if c.appends + 1 >= COMPACTION_INTERVAL { CompactOk(Appended(c, r), clock); }
  }

  lemma LogDurable(c: Cache, r: Record, clock: nat, p: Use)
    requires Ready(c, r, clock) && Durable(c.journal, clock, p) && p.due <= c.journal.written + |c.journal.queue|
    ensures Durable(Log(c, r).journal, clock, p)
  {
    hide Live, After, FilesOk, Compact, Retain;
    assert Remembered(After(c.journal, |c.journal.queue|), clock, p);
    LiveAppend(Latest(c.journal), r, clock);
    EnqueueDurable(c.journal, Append(r), clock, p);
    if c.appends + 1 >= COMPACTION_INTERVAL { CompactDurable(Appended(c, r), clock, p); }
  }

  lemma OwnUseDurable(c: Cache, r: Record, clock: nat, p: Use)
    requires Ready(c, r, clock) && p.key == r.key && p.expires == r.expires
    requires p.due == Log(c, r).journal.written + |Log(c, r).journal.queue|
    ensures Durable(Log(c, r).journal, clock, p)
  {
    hide Live, After, FilesOk;
    LogOk(c, r, clock);
    var j := Log(c, r).journal;
    assert Log(c, r).entries == c.entries[r.key := r.expires];
    forall n: nat | n <= |j.queue| && p.due <= j.written + n ensures Remembered(After(j, n), clock, p) {
      assert n == |j.queue|;
    }
  }

  lemma LogGrows(c: Cache, r: Record)
    ensures Log(c, r).journal.written == c.journal.written
    ensures |Log(c, r).journal.queue| > |c.journal.queue|
  {
  }

  /** Whatever has been logged and has not expired is in memory. */
  lemma StillHeld(s: System, p: Use)
    requires SystemOk(s) && p in s.pending + s.returned && p.expires > s.clock
    ensures p.key in s.cache.entries && s.cache.entries[p.key] == p.expires
  {
    hide Live, After, FilesOk, UsesOk;
    var j := s.cache.journal;
    var q := if p in s.pending then p else p.(due := 0);
    assert Durable(j, s.clock, q);
    assert Remembered(After(j, |j.queue|), s.clock, q);
  }

  // ---------- Steps ----------

  /** Dropping the expired nonces at a later time. */
  function Pruned(s: System, now: nat): System {
    s.(cache := s.cache.(entries := Retain(s.cache.entries, now)), clock := now)
  }

  lemma PruneSystem(s: System, now: nat)
    requires SystemOk(s) && s.clock <= now
    ensures SystemOk(Pruned(s, now))
    ensures Retain(Pruned(s, now).cache.entries, now) == Pruned(s, now).cache.entries
  {
    hide Live, After, Durable;
    PruneOk(s.cache, s.clock, now);
    RetainFacts(s.cache.entries, now);
    forall p | p in s.pending ensures Durable(s.cache.journal, now, p) { DurableLater(s.cache.journal, s.clock, now, p); }
    forall p | p in s.returned ensures Durable(s.cache.journal, now, p.(due := 0)) {
      DurableLater(s.cache.journal, s.clock, now, p.(due := 0));
    }
  }

  lemma ConsumeStepOk(s: System, key: Key, expires: Millis, now: nat)
    requires SystemOk(s) && s.clock <= now
    ensures SystemOk(Next(s, Consume(key, expires, now)))
  {
    hide Live, After, Durable, FilesOk, Log, Retain;
    PruneSystem(s, now);
    var t := Pruned(s, now);
    if ConsumeOn(s.cache, key, expires, now).1.Ok? {
      var r := Record(key, expires);
      assert Ready(t.cache, r, now);
      LogOk(t.cache, r, now);
      LogGrows(t.cache, r);
      var j := Log(t.cache, r).journal;
      var mine := Use(s.serial, key, expires, now, j.written + |j.queue|);
      OwnUseDurable(t.cache, r, now, mine);
      forall p | p in t.pending ensures Durable(j, now, p) { LogDurable(t.cache, r, now, p); }
      forall p | p in t.returned ensures Durable(j, now, p.(due := 0)) { LogDurable(t.cache, r, now, p.(due := 0)); }
      forall p | p in t.pending + t.returned && p.key == key ensures p.expires <= now {
        if p.expires > now { StillHeld(t, p); }
      }
    }
  }

  lemma FlushStepOk(s: System, m: nat)
    requires SystemOk(s) && m <= |s.cache.journal.queue|
    ensures SystemOk(Next(s, Flush(m)))
  {
    hide Live, FileOk, Remembered;
    var j, k := s.cache.journal, Advance(s.cache.journal, m);
    forall n: nat | n <= |k.queue| ensures After(k, n) == After(j, m + n) { AfterAdvance(j, m, n); }
    forall p: Use | Durable(j, s.clock, p) ensures Durable(k, s.clock, p) { AdvanceDurable(j, m, s.clock, p); }
    assert Latest(k) == Latest(j);
  }

  lemma AdvanceDurable(j: Journal<Record>, m: nat, clock: nat, p: Use)
    requires m <= |j.queue| && Durable(j, clock, p)
    ensures Durable(Advance(j, m), clock, p)
  {
    hide After, Remembered;
    var k := Advance(j, m);
    forall n: nat | n <= |k.queue| && p.due <= k.written + n ensures Remembered(After(k, n), clock, p) {
      AfterAdvance(j, m, n);
      assert Remembered(After(j, m + n), clock, p);
    }
  }

  lemma OpenOk(file: seq<Record>, now: nat)
    requires FileOk(file, now)
    ensures CacheOk(Open(file, now), now)
  {
    hide Live, Compact;
    var live := Live(file, now).value;
    RetainFacts(live, now);
    CompactOk(Cache(Retain(live, now), 0, Journal(file, [], 0)), now);
  }

  lemma OpenDurable(file: seq<Record>, now: nat, p: Use)
    requires FileOk(file, now) && Remembered(file, now, p)
    ensures Durable(Open(file, now).journal, now, p)
  {
    hide Live, Compact;
    CompactDurable(Cache(Retain(Live(file, now).value, now), 0, Journal(file, [], 0)), now, p);
  }

  lemma CrashStepOk(s: System, n: nat, now: nat)
    requires SystemOk(s) && Enabled(s, Crash(n, now))
    ensures SystemOk(Next(s, Crash(n, now)))
  {
    hide Live, Open, Loadable, After;
    var file := After(s.cache.journal, n);
    assert FileOk(file, s.clock);
    FileLater(file, s.clock, now);
    OpenOk(file, now);
    forall p | p in s.returned ensures Durable(Open(file, now).journal, now, p.(due := 0)) {
      DurableLater(s.cache.journal, s.clock, now, p.(due := 0));
      assert Remembered(After(s.cache.journal, n), now, p.(due := 0));
      OpenDurable(file, now, p.(due := 0));
    }
  }

  lemma ReturnDurable(j: Journal<Record>, clock: nat, p: Use)
    requires Durable(j, clock, p) && p.due <= j.written
    ensures Durable(j, clock, p.(due := 0))
  {
    hide Live, After;
    forall n: nat | n <= |j.queue| ensures Remembered(After(j, n), clock, p.(due := 0)) {
      assert Remembered(After(j, n), clock, p);
    }
  }

  lemma NextOk(s: System, step: Step)
    requires SystemOk(s) && Enabled(s, step)
    ensures SystemOk(Next(s, step))
  {
    hide Live, After, CacheOk, Loadable, Remembered;
    match step
    case Consume(key, expires, now) => ConsumeStepOk(s, key, expires, now);
    case Flush(n) => FlushStepOk(s, n);
    case Return(p) => ReturnDurable(s.cache.journal, s.clock, p);
    case Crash(n, now) => CrashStepOk(s, n, now);
  }

  lemma {:induction false} RunOk(states: seq<System>, steps: seq<Step>, now: nat, i: nat)
    requires Run(states, steps, now) && i < |states|
    ensures SystemOk(states[i])
  {
    hide SystemOk, Next;
    if i == 0 {
      StartOk(now);
    } else {
      RunOk(states, steps, now, i - 1);
      assert Enabled(states[i - 1], steps[i - 1]) && states[i - 1 + 1] == Next(states[i - 1], steps[i - 1]);
      NextOk(states[i - 1], steps[i - 1]);
    }
  }

  lemma StartOk(now: nat)
    ensures SystemOk(Start(now))
  {
    OpenOk([], now);
  }

  // ---------- What holds over every run ----------

  /** Of two successful uses of one nonce, in one process or across restarts, the later was made at or after the
      expiry of the earlier. */
  lemma AtMostOnce(states: seq<System>, steps: seq<Step>, now: nat, i: nat, p: Use, q: Use)
    requires Run(states, steps, now) && i < |states|
    requires p in states[i].returned && q in states[i].returned && p.key == q.key && p.serial < q.serial
    ensures p.expires <= q.at
  {
    hide Run, CacheOk, UsesDurable;
    RunOk(states, steps, now, i);
  }

  /** A crash at any point leaves a file that reload accepts, at any later time, exactly when no record in it has expiry
      zero. */
  lemma ReloadExactly(states: seq<System>, steps: seq<Step>, now: nat, i: nat, n: nat, later: nat)
    requires Run(states, steps, now) && i < |states| && n <= |states[i].cache.journal.queue| && states[i].clock <= later
    ensures Loadable(After(states[i].cache.journal, n), later) <==> NoZero(After(states[i].cache.journal, n))
  {
    hide Run, Live, After, UsesOk, UsesDurable;
    RunOk(states, steps, now, i);
    var file := After(states[i].cache.journal, n);
    assert FileOk(file, states[i].clock);
    FileLater(file, states[i].clock, later);
    FewRecordsFit(file);
  }

  /** Letting in a nonce with expiry zero leaves a log that reload refuses at every later time. */
  lemma ZeroExpiryBlocksReload(c: Cache, key: Key, now: nat, later: nat)
    requires ConsumeOn(c, key, 0, now).1.Ok?
    ensures !Loadable(Latest(ConsumeOn(c, key, 0, now).0.journal), later)
  {
    hide Live, After, Compacted;
    var pruned := c.(entries := Retain(c.entries, now));
    var r := Record(key, 0);
    AfterEnqueue(pruned.journal, Append(r), 0);
    var logged := Appended(pruned, r);
    if logged.appends < COMPACTION_INTERVAL {
      assert r in Latest(logged.journal);
    } else {
      AfterEnqueue(logged.journal, Replace(Compacted(logged.entries)), 0);
      CompactedFacts(logged.entries);
      assert r == Record(key, logged.entries[key]);
      assert r in Compacted(logged.entries);
    }
  }

  // ---------- Expiries that are never zero ----------

  /** The call consumes a nonce with expiry zero. */
  predicate LetsZeroIn(s: System, step: Step) {
    step.Consume? && step.expires == 0 && ConsumeOn(s.cache, step.key, step.expires, step.now).1.Ok?
  }

  ghost predicate Positive(c: Cache) {
    && (forall k | k in c.entries :: c.entries[k] > 0)
    && (forall n: nat | n <= |c.journal.queue| :: NoZero(After(c.journal, n)))
  }

  lemma EnqueuePositive(j: Journal<Record>, command: Command<Record>)
    requires forall n: nat | n <= |j.queue| :: NoZero(After(j, n))
    requires NoZero(Write(Latest(j), command))
    ensures forall n: nat | n <= |Enqueue(j, command).queue| :: NoZero(After(Enqueue(j, command), n))
  {
    hide NoZero, Write, After;
    var k := Enqueue(j, command);
    forall n: nat | n <= |k.queue| ensures NoZero(After(k, n)) {
      if n <= |j.queue| { AfterEnqueue(j, command, n); } else { AfterEnqueue(j, command, 0); }
    }
  }

  lemma CompactPositive(c: Cache)
    requires Positive(c)
    ensures Positive(Compact(c))
  {
    hide After, Compacted;
    CompactedFacts(c.entries);
    EnqueuePositive(c.journal, Replace(Compacted(c.entries)));
  }

  lemma {:induction false} LiveFromRecords(records: seq<Record>, now: nat)
    requires Live(records, now).Some? && NoZero(records)
    ensures forall k | k in Live(records, now).value :: Live(records, now).value[k] > 0
  {
    if records != [] {
      var n := |records| - 1;
      assert records == records[..n] + [records[n]] && records[n] in records;
      LiveFromRecords(records[..n], now);
    }
  }

  lemma NextPositive(s: System, step: Step)
    requires Positive(s.cache) && Enabled(s, step) && !LetsZeroIn(s, step)
    ensures Positive(Next(s, step).cache)
  {
    hide Live, Compact, Compacted;
    match step
    case Consume(key, expires, now) =>
      var pruned := s.cache.(entries := Retain(s.cache.entries, now));
      if ConsumeOn(s.cache, key, expires, now).1.Err? { return; }
      var r := Record(key, expires);
      EnqueuePositive(pruned.journal, Append(r));
      var logged := Appended(pruned, r);
      assert Positive(logged);
      CompactPositive(logged);
    case Flush(m) =>
      var j, k := s.cache.journal, Advance(s.cache.journal, m);
      forall n: nat | n <= |k.queue| ensures NoZero(After(k, n)) { AfterAdvance(j, m, n); }
    case Return(p) =>
    case Crash(n, now) =>
      var file := After(s.cache.journal, n);
      LiveFromRecords(file, now);
      CompactPositive(Cache(Retain(Live(file, now).value, now), 0, Journal(file, [], 0)));
  }

  lemma {:induction false} RunPositive(states: seq<System>, steps: seq<Step>, now: nat, i: nat)
    requires Run(states, steps, now) && i < |states|
    requires forall k | 0 <= k < i :: !LetsZeroIn(states[k], steps[k])
    ensures Positive(states[i].cache)
  {
    hide Positive, Next, LetsZeroIn;
    if i == 0 {
      StartPositive(now);
    } else {
      RunPositive(states, steps, now, i - 1);
      assert Enabled(states[i - 1], steps[i - 1]) && states[i - 1 + 1] == Next(states[i - 1], steps[i - 1]);
      NextPositive(states[i - 1], steps[i - 1]);
    }
  }

  /** A crash after `n` more commands, in state `i`, leaves a file that reload accepts at time `later`. */
  ghost predicate Reloads(states: seq<System>, i: nat, n: nat, later: nat)
    requires i < |states| && n <= |states[i].cache.journal.queue|
  {
    Loadable(After(states[i].cache.journal, n), later)
  }

  /** The cache can reload its own log after a crash at any point of a run, at any later time, if and only if no call in
      the run consumed a nonce with expiry zero. */
  lemma ReloadsIffNoZero(states: seq<System>, steps: seq<Step>, now: nat)
    requires Run(states, steps, now)
    ensures (forall i: nat, n: nat, later: nat
               | i < |states| && n <= |states[i].cache.journal.queue| && states[i].clock <= later :: Reloads(states, i, n, later))
        <==> (forall k | 0 <= k < |steps| :: !LetsZeroIn(states[k], steps[k]))
  {
    hide Loadable, Next, Positive;
    if k :| 0 <= k < |steps| && LetsZeroIn(states[k], steps[k]) {
      assert Enabled(states[k], steps[k]) && states[k + 1] == Next(states[k], steps[k]);
      ZeroLeavesLog(states[k], steps[k]);
      assert !Reloads(states, k + 1, |states[k + 1].cache.journal.queue|, states[k + 1].clock);
    }
    if forall k | 0 <= k < |steps| :: !LetsZeroIn(states[k], steps[k]) {
      forall i: nat, n: nat, later: nat
        | i < |states| && n <= |states[i].cache.journal.queue| && states[i].clock <= later
        ensures Reloads(states, i, n, later)
      {
        RunPositive(states, steps, now, i);
        PositiveFile(states[i].cache, n);
        ReloadExactly(states, steps, now, i, n, later);
      }
    }
  }

  lemma ZeroLeavesLog(s: System, step: Step)
    requires Enabled(s, step) && LetsZeroIn(s, step)
    ensures !Loadable(Latest(Next(s, step).cache.journal), Next(s, step).clock)
  {
    hide Loadable;
    ZeroExpiryBlocksReload(s.cache, step.key, step.now, step.now);
  }

  lemma PositiveFile(c: Cache, n: nat)
    requires Positive(c) && n <= |c.journal.queue|
    ensures NoZero(After(c.journal, n))
  {
  }

  lemma StartPositive(now: nat)
    ensures Positive(Start(now).cache)
  {
    hide Compact;
    CompactPositive(Cache(Retain(map[], now), 0, Journal([], [], 0)));
  }
}
