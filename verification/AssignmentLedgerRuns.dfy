/** Crash safety of the assignment ledger: every interleaving of calls, writes, returns, recoveries and crashes. */
module AssignmentLedgerRuns {
  import opened Outcomes
  import opened Journals
  import opened AssignmentLedgers

  /** A call that has logged its record and waits for it; `due` is the number of written commands it waits for. */
  datatype Logged = Logged(serial: nat, record: Record, begins: bool, due: nat)

  /** A running daemon. `returned` remembers, across restarts, the calls that reported success. */
  datatype System = System(ledger: Ledger, serial: nat, pending: set<Logged>, returned: set<Logged>)

  datatype Step =
    | Invoke(call: Call)
    | Flush(commands: nat)
    | Return(logged: Logged)
    | Reconcile
    | Crash(commands: nat)

  predicate Enabled(s: System, step: Step) {
    match step
    case Invoke(call) => true
    case Flush(n) => n <= |s.ledger.journal.queue|
    case Return(p) => p in s.pending && p.due <= s.ledger.journal.written
    case Reconcile => true
    case Crash(n) => n <= |s.ledger.journal.queue|
  }

  function Next(s: System, step: Step): System
    requires Enabled(s, step)
  {
    match step
    case Invoke(call) =>
      var wanted := Wanted(s.ledger, call);
      if wanted.Err? then s
      else
        var ledger := Log(s.ledger, wanted.value);
        var due := ledger.journal.written + |ledger.journal.queue|;
        System(ledger, s.serial + 1, s.pending + {Logged(s.serial, wanted.value, Begins(call), due)}, s.returned)
    case Flush(n) => s.(ledger := s.ledger.(journal := Advance(s.ledger.journal, n)))
    case Return(p) => s.(pending := s.pending - {p}, returned := s.returned + {p})
    case Reconcile => s.(ledger := Recover(s.ledger))
    case Crash(n) => s.(ledger := Open(After(s.ledger.journal, n)), pending := {})
  }

  function Start(): System {
    System(Open([]), 0, {}, {})
  }

  /** The states of one run, restarts included. */
  ghost predicate Run(states: seq<System>, steps: seq<Step>) {
    && |states| == |steps| + 1
    && states[0] == Start()
    && forall i | 0 <= i < |steps| :: Enabled(states[i], steps[i]) && states[i + 1] == Next(states[i], steps[i])
  }

  // ---------- The journal invariant ----------

  /** The entries a restart would find if it came after `n` more commands. */
  function Memory(j: Journal<Record>, n: nat): Entries
    requires n <= |j.queue|
  {
    Replay(After(j, n))
  }

  ghost predicate FilesOk(j: Journal<Record>) {
    forall n: nat | n <= |j.queue| ::
      |After(j, n)| <= MAXIMUM_RECOVERY_RECORDS && EntriesOk(Memory(j, n))
  }

  ghost predicate Evolving(j: Journal<Record>) {
    forall n: nat | n < |j.queue| :: Evolves(Memory(j, n), Memory(j, n + 1))
  }

  ghost predicate LedgerOk(l: Ledger) {
    && EntriesOk(l.entries)
    && Replay(Latest(l.journal)) == l.entries
    && |Latest(l.journal)| <= MAXIMUM_ASSIGNMENTS + l.appends
    && l.appends < COMPACTION_INTERVAL
    && FilesOk(l.journal)
    && Evolving(l.journal)
  }

  lemma EnqueueOk(j: Journal<Record>, command: Command<Record>)
    requires FilesOk(j) && Evolving(j)
    requires |Write(Latest(j), command)| <= MAXIMUM_RECOVERY_RECORDS
    requires EntriesOk(Replay(Write(Latest(j), command)))
    requires Evolves(Replay(Latest(j)), Replay(Write(Latest(j), command)))
    ensures FilesOk(Enqueue(j, command)) && Evolving(Enqueue(j, command))
  {
    hide Replay, EntriesOk, Evolves, Write, After;
    var k := Enqueue(j, command);
    forall n: nat | n <= |k.queue|
      ensures |After(k, n)| <= MAXIMUM_RECOVERY_RECORDS && EntriesOk(Memory(k, n))
    {
      if n <= |j.queue| { AfterEnqueue(j, command, n); } else { AfterEnqueue(j, command, 0); }
    }
    forall n: nat | n < |k.queue| ensures Evolves(Memory(k, n), Memory(k, n + 1)) {
      AfterEnqueue(j, command, n);
      if n < |j.queue| { AfterEnqueue(j, command, n + 1); }
    }
  }

  lemma EvolvesItself(entries: Entries)
    ensures Evolves(entries, entries)
  {
  }

  /** Compacting the entries one has, or entries that legally follow them. */
  lemma CompactOk(l: Ledger)
    requires FilesOk(l.journal) && Evolving(l.journal)
    requires EntriesOk(l.entries) && Evolves(Replay(Latest(l.journal)), l.entries)
    ensures LedgerOk(Compact(l))
  {
    hide Replay, After, Compacted, FilesOk, Evolving, Evolves;
    CompactedReplays(l.entries);
    EnqueueOk(l.journal, Replace(Compacted(l.entries)));
    AfterEnqueue(l.journal, Replace(Compacted(l.entries)), 0);
  }

  lemma ReplayAppend(records: seq<Record>, r: Record)
    ensures Replay(records + [r]) == Replay(records)[r.key := r]
  {
    assert (records + [r])[..|records|] == records;
  }

  lemma LogOk(l: Ledger, call: Call)
    requires LedgerOk(l) && Wanted(l, call).Ok?
    ensures LedgerOk(Log(l, Wanted(l, call).value))
  {
    hide Replay, After, Compacted, FilesOk, Evolving, Compact, Wanted;
    WantedFollows(l, call);
    var r := Wanted(l, call).value;
    var entries := l.entries[r.key := r];
    ReplayAppend(Latest(l.journal), r);
    assert EntriesOk(entries) && Evolves(l.entries, entries);
    EnqueueOk(l.journal, Append(r));
    AfterEnqueue(l.journal, Append(r), 0);
    var logged := Ledger(entries, l.appends + 1, Enqueue(l.journal, Append(r)));
    if logged.appends >= COMPACTION_INTERVAL {
      EvolvesItself(entries);
      CompactOk(logged);
    }
  }

  lemma AdvanceOk(l: Ledger, n: nat)
    requires LedgerOk(l) && n <= |l.journal.queue|
    ensures LedgerOk(l.(journal := Advance(l.journal, n)))
  {
    hide Replay, EntriesOk, Evolves;
    var j, k := l.journal, Advance(l.journal, n);
    forall m: nat | m <= |k.queue| ensures After(k, m) == After(j, n + m) { AfterAdvance(j, n, m); }
    assert Latest(k) == Latest(j);
  }

  lemma OpenOk(file: seq<Record>)
    requires |file| <= MAXIMUM_RECOVERY_RECORDS && EntriesOk(Replay(file))
    ensures LedgerOk(Open(file))
  {
    hide Replay, EntriesOk, Evolves, Compact;
    var loaded := Ledger(Replay(file), 0, Journal(file, [], 0));
    EvolvesItself(Replay(file));
    CompactOk(loaded);
  }

  lemma RecoverOk(l: Ledger)
    requires LedgerOk(l)
    ensures LedgerOk(Recover(l))
  {
    hide Replay, After, Compact, FilesOk, Evolving, FailBusy, Evolves;
    FailBusyFacts(l.entries);
    if FailBusy(l.entries) != l.entries { CompactOk(l.(entries := FailBusy(l.entries))); }
  }

  // ---------- Durability of what was reported ----------

  /** `m` has reached record `r`: its epoch, or a later one; and a finished assignment is still as `r` left it. */
  predicate Reached(m: Entries, r: Record) {
    && r.key in m
    && r.epoch <= m[r.key].epoch
    && (r.epoch == m[r.key].epoch && !r.state.Busy() ==> m[r.key] == r)
  }

  /** Every restart from now on will have reached `p`'s record once `p.due` commands are written. */
  ghost predicate Durable(j: Journal<Record>, p: Logged) {
    forall n: nat | n <= |j.queue| && p.due <= j.written + n :: Reached(Memory(j, n), p.record)
  }

  lemma ReachedStays(m: Entries, n: Entries, r: Record)
    requires Reached(m, r) && Evolves(m, n)
    ensures Reached(n, r)
  {
  }

  lemma EnqueueDurable(j: Journal<Record>, command: Command<Record>, p: Logged)
    requires Durable(j, p) && p.due <= j.written + |j.queue|
    requires Evolves(Replay(Latest(j)), Replay(Write(Latest(j), command)))
    ensures Durable(Enqueue(j, command), p)
  {
    hide Replay, Evolves, Write, After, Reached;
    var k := Enqueue(j, command);
    assert Reached(Memory(j, |j.queue|), p.record);
    forall n: nat | n <= |k.queue| && p.due <= k.written + n ensures Reached(Memory(k, n), p.record) {
      if n <= |j.queue| {
        AfterEnqueue(j, command, n);
        assert Reached(Memory(j, n), p.record);
      } else {
        AfterEnqueue(j, command, 0);
        assert After(k, n) == Latest(k);
        ReachedStays(Replay(Latest(j)), Replay(Write(Latest(j), command)), p.record);
      }
    }
  }

  ghost predicate CallsOk(s: System) {
    && s.pending !! s.returned
    && (forall p | p in s.pending + s.returned :: p.serial < s.serial)
    && (forall p, q | p in s.pending + s.returned && q in s.pending + s.returned && p.serial == q.serial :: p == q)
    && (forall p, q | p in s.pending + s.returned && q in s.pending + s.returned && p.begins && q.begins
          && p.record.key == q.record.key && p.serial < q.serial :: p.record.epoch < q.record.epoch)
  }

  ghost predicate CallsDurable(s: System) {
    var j := s.ledger.journal;
    && (forall p | p in s.pending :: p.due <= j.written + |j.queue| && Durable(j, p))
    && (forall p | p in s.returned :: Durable(j, p.(due := 0)))
  }

  ghost predicate SystemOk(s: System) {
    LedgerOk(s.ledger) && CallsOk(s) && CallsDurable(s)
  }

  /** Whatever has been logged by a call is reached by the entries in memory. */
  lemma AllReached(s: System, p: Logged)
    requires SystemOk(s) && p in s.pending + s.returned
    ensures Reached(s.ledger.entries, p.record)
  {
    hide Replay, After, FilesOk, Evolving, EntriesOk, CallsOk, Reached;
    var j := s.ledger.journal;
    var q := if p in s.pending then p else p.(due := 0);
    assert Durable(j, q);
    assert Reached(Memory(j, |j.queue|), q.record);
  }

  lemma CompactDurable(l: Ledger, p: Logged)
    requires Durable(l.journal, p) && p.due <= l.journal.written + |l.journal.queue|
    requires EntriesOk(l.entries) && Evolves(Replay(Latest(l.journal)), l.entries)
    ensures Durable(Compact(l).journal, p)
  {
    hide Replay, After, Compacted, Evolves, Durable;
    CompactedReplays(l.entries);
    EnqueueDurable(l.journal, Replace(Compacted(l.entries)), p);
  }

  lemma LogDurable(l: Ledger, r: Record, p: Logged)
    requires LedgerOk(l) && RecordOk(r.key, r) && |l.entries[r.key := r]| <= MAXIMUM_ASSIGNMENTS
    requires r.key in l.entries ==> Follows(l.entries[r.key], r)
    requires Durable(l.journal, p) && p.due <= l.journal.written + |l.journal.queue|
    ensures Durable(Log(l, r).journal, p)
  {
    hide Replay, After, Compacted, FilesOk, Evolving, Durable, Compact;
    var entries := l.entries[r.key := r];
    ReplayAppend(Latest(l.journal), r);
    assert Evolves(l.entries, entries);
    EnqueueDurable(l.journal, Append(r), p);
    AfterEnqueue(l.journal, Append(r), 0);
    var logged := Ledger(entries, l.appends + 1, Enqueue(l.journal, Append(r)));
    if logged.appends >= COMPACTION_INTERVAL {
      EvolvesItself(entries);
      CompactDurable(logged, p);
    }
  }

  /** A call's own record is reached exactly when the commands it waits for are written. */
  lemma OwnRecordDurable(l: Ledger, r: Record, p: Logged)
    requires LedgerOk(Log(l, r)) && p.record == r
    requires p.due == Log(l, r).journal.written + |Log(l, r).journal.queue|
    ensures Durable(Log(l, r).journal, p)
  {
    hide Replay, After, FilesOk, Evolving, EntriesOk;
    var j := Log(l, r).journal;
    assert Log(l, r).entries == l.entries[r.key := r];
    forall n: nat | n <= |j.queue| && p.due <= j.written + n ensures Reached(Memory(j, n), p.record) {
      assert n == |j.queue|;
    }
  }

  /** A record that raises its key's epoch is above all that was logged for the key. */
  lemma BeginsAbove(s: System, r: Record, p: Logged)
    requires SystemOk(s) && p in s.pending + s.returned && p.record.key == r.key
    requires r.key in s.ledger.entries ==> s.ledger.entries[r.key].epoch < r.epoch
    ensures p.record.epoch < r.epoch
  {
    hide SystemOk, Reached;
    AllReached(s, p);
    ReachedEpoch(s.ledger.entries, p.record);
  }

  lemma InvokeCalls(s: System, call: Call)
    requires SystemOk(s) && Wanted(s.ledger, call).Ok?
    ensures CallsOk(Next(s, Invoke(call)))
  {
    EntriesAreOk(s.ledger);
    WantedFollows(s.ledger, call);
    var r := Wanted(s.ledger, call).value;
    hide LedgerOk, CallsDurable, Wanted, Log;
    if Begins(call) {
      forall p | p in s.pending + s.returned && p.record.key == r.key ensures p.record.epoch < r.epoch { BeginsAbove(s, r, p); }
    }
  }

  lemma InvokeDurable(s: System, call: Call)
    requires SystemOk(s) && Wanted(s.ledger, call).Ok?
    ensures CallsDurable(Next(s, Invoke(call)))
  {
    EntriesAreOk(s.ledger);
    WantedFollows(s.ledger, call);
    LogOk(s.ledger, call);
    hide Replay, After, Durable, LedgerOk, Wanted, Log, CallsOk, Follows, RecordOk, EntriesOk;
    var r := Wanted(s.ledger, call).value;
    var t := Next(s, Invoke(call));
    LogGrows(s.ledger, r);
    var due := t.ledger.journal.written + |t.ledger.journal.queue|;
    OwnRecordDurable(s.ledger, r, Logged(s.serial, r, Begins(call), due));
    forall p | p in s.pending ensures Durable(t.ledger.journal, p) { LogDurable(s.ledger, r, p); }
    forall p | p in s.returned ensures Durable(t.ledger.journal, p.(due := 0)) { LogDurable(s.ledger, r, p.(due := 0)); }
  }

  lemma InvokeOk(s: System, call: Call)
    requires SystemOk(s)
    ensures SystemOk(Next(s, Invoke(call)))
  {
    hide LedgerOk, CallsOk, CallsDurable, Wanted, Log;
    if Wanted(s.ledger, call).Ok? {
      EntriesAreOk(s.ledger);
      LogOk(s.ledger, call);
      InvokeCalls(s, call);
      InvokeDurable(s, call);
    }
  }

  lemma EntriesAreOk(l: Ledger)
    requires LedgerOk(l)
    ensures EntriesOk(l.entries)
  {
  }

  lemma ReachedEpoch(m: Entries, r: Record)
    requires Reached(m, r)
    ensures r.key in m && r.epoch <= m[r.key].epoch
  {
  }

  lemma LogGrows(l: Ledger, r: Record)
    ensures Log(l, r).journal.written == l.journal.written
    ensures |Log(l, r).journal.queue| > |l.journal.queue|
    ensures Log(l, r).entries == l.entries[r.key := r]
  {
  }

  lemma AdvanceDurable(j: Journal<Record>, m: nat, p: Logged)
    requires m <= |j.queue| && Durable(j, p)
    ensures Durable(Advance(j, m), p)
  {
    hide Replay, After, Reached;
    var k := Advance(j, m);
    forall n: nat | n <= |k.queue| && p.due <= k.written + n ensures Reached(Memory(k, n), p.record) {
      AfterAdvance(j, m, n);
      assert Reached(Memory(j, m + n), p.record);
    }
  }

  lemma OpenDurable(j: Journal<Record>, n: nat, p: Logged)
    requires n <= |j.queue| && p.due == 0 && Durable(j, p) && EntriesOk(Memory(j, n))
    ensures Durable(Open(After(j, n)).journal, p)
  {
    hide Replay, Reached, Compact, After, Evolves;
    var file := After(j, n);
    assert Reached(Memory(j, n), p.record);
    var k := Journal(file, [], 0);
    assert Durable(k, p) by { AfterNothing(k); }
    EvolvesItself(Replay(file));
    AfterNothing(k);
    CompactDurable(Ledger(Replay(file), 0, k), p);
  }

  lemma AfterNothing(j: Journal<Record>)
    ensures After(j, 0) == j.file
  {
  }

  lemma FileIsOk(l: Ledger, n: nat)
    requires LedgerOk(l) && n <= |l.journal.queue|
    ensures |After(l.journal, n)| <= MAXIMUM_RECOVERY_RECORDS && EntriesOk(Memory(l.journal, n))
  {
    hide Replay, EntriesOk, Evolving;
  }

  /** Every step of the daemon, and every crash, keeps the system in order. */
  lemma NextOk(s: System, step: Step)
    requires SystemOk(s) && Enabled(s, step)
    ensures SystemOk(Next(s, step))
  {
    hide Replay, After, Durable, LedgerOk, Recover, Open;
    match step
    case Invoke(call) => InvokeOk(s, call);
    case Flush(n) =>
      AdvanceOk(s.ledger, n);
      forall p | p in s.pending ensures Durable(Advance(s.ledger.journal, n), p) { AdvanceDurable(s.ledger.journal, n, p); }
      forall p | p in s.returned ensures Durable(Advance(s.ledger.journal, n), p.(due := 0)) {
        AdvanceDurable(s.ledger.journal, n, p.(due := 0));
      }
    case Return(p) => ReturnDurable(s.ledger.journal, p);
    case Reconcile => ReconcileOk(s);
    case Crash(n) =>
      FileIsOk(s.ledger, n);
      OpenOk(After(s.ledger.journal, n));
      forall p | p in s.returned ensures Durable(Open(After(s.ledger.journal, n)).journal, p.(due := 0)) {
        OpenDurable(s.ledger.journal, n, p.(due := 0));
      }
  }

  lemma ReturnDurable(j: Journal<Record>, p: Logged)
    requires Durable(j, p) && p.due <= j.written
    ensures Durable(j, p.(due := 0))
  {
  }

  lemma CompactCallsDurable(l: Ledger, s: System)
    requires s.ledger.journal == l.journal && CallsDurable(s)
    requires EntriesOk(l.entries) && Evolves(Replay(Latest(l.journal)), l.entries)
    ensures CallsDurable(s.(ledger := Compact(l)))
  {
    hide Replay, After, Durable, Evolves, EntriesOk, Compacted;
    forall p | p in s.pending ensures Durable(Compact(l).journal, p) { CompactDurable(l, p); }
    forall p | p in s.returned ensures Durable(Compact(l).journal, p.(due := 0)) { CompactDurable(l, p.(due := 0)); }
  }

  lemma ReconcileOk(s: System)
    requires SystemOk(s)
    ensures SystemOk(Next(s, Reconcile))
  {
    RecoverOk(s.ledger);
    EntriesAreOk(s.ledger);
    FailBusyFacts(s.ledger.entries);
    LatestIsMemory(s.ledger);
    hide Replay, After, Durable, LedgerOk, CallsDurable, CallsOk, FailBusy, Evolves, Compact, EntriesOk;
    CompactCallsDurable(s.ledger.(entries := FailBusy(s.ledger.entries)), s);
    SameCalls(s, Recover(s.ledger));
  }

  lemma LatestIsMemory(l: Ledger)
    requires LedgerOk(l)
    ensures Replay(Latest(l.journal)) == l.entries
  {
  }

  lemma SameCalls(s: System, l: Ledger)
    requires CallsOk(s)
    ensures CallsOk(s.(ledger := l))
  {
  }

  lemma {:induction false} RunOk(states: seq<System>, steps: seq<Step>, i: nat)
    requires Run(states, steps) && i < |states|
    ensures SystemOk(states[i])
  {
    hide SystemOk, Next;
    if i == 0 {
      StartOk();
    } else {
      RunOk(states, steps, i - 1);
      assert Enabled(states[i - 1], steps[i - 1]) && states[i - 1 + 1] == Next(states[i - 1], steps[i - 1]);
      NextOk(states[i - 1], steps[i - 1]);
    }
  }

  lemma StartOk()
    ensures SystemOk(Start())
  {
    OpenOk([]);
  }

  // ---------- What holds over every run ----------

  /** Replaying everything queued gives the entries in memory, and a crash at any point leaves a file that reload
      accepts: no more records, bytes or keys than its limits. */
  lemma CrashSafety(states: seq<System>, steps: seq<Step>, i: nat, n: nat)
    requires Run(states, steps) && i < |states| && n <= |states[i].ledger.journal.queue|
    ensures Replay(Latest(states[i].ledger.journal)) == states[i].ledger.entries
    ensures Loadable(After(states[i].ledger.journal, n))
  {
    hide Run, Replay, After, Evolving, CallsOk, CallsDurable;
    RunOk(states, steps, i);
    FileIsOk(states[i].ledger, n);
    FewRecordsFit(After(states[i].ledger.journal, n));
  }

  lemma {:induction false} ReturnedGrows(states: seq<System>, steps: seq<Step>, i: nat, j: nat)
    requires Run(states, steps) && i <= j < |states|
    ensures states[i].returned <= states[j].returned
  {
    if i < j {
      ReturnedGrows(states, steps, i, j - 1);
      assert Enabled(states[j - 1], steps[j - 1]) && states[j - 1 + 1] == Next(states[j - 1], steps[j - 1]);
    }
  }

  /** Of two begins that both reported success for one key, in one process or across any number of restarts, the one
      made later reported the strictly higher epoch, whichever returned first. */
  lemma EpochsNeverReissued(states: seq<System>, steps: seq<Step>, i: nat, j: nat)
    requires Run(states, steps) && i < j < |steps|
    requires steps[i].Return? && steps[j].Return? && steps[i].logged.begins && steps[j].logged.begins
    requires steps[i].logged.record.key == steps[j].logged.record.key
    ensures steps[i].logged.serial != steps[j].logged.serial
    ensures steps[i].logged.serial < steps[j].logged.serial <==> steps[i].logged.record.epoch < steps[j].logged.record.epoch
    ensures steps[i].logged.record.epoch != steps[j].logged.record.epoch
  {
    hide LedgerOk, CallsDurable;
    var p, q := steps[i].logged, steps[j].logged;
    assert Enabled(states[i], steps[i]) && states[i + 1] == Next(states[i], steps[i]);
    assert Enabled(states[j], steps[j]);
    ReturnedGrows(states, steps, i + 1, j);
    RunOk(states, steps, j);
    assert p in states[j].returned && q in states[j].pending;
  }

  lemma {:induction false} EpochsRise(l: Ledger, m: nat, n: nat, key: Key)
    requires LedgerOk(l) && m <= n <= |l.journal.queue| && key in Memory(l.journal, m)
    ensures key in Memory(l.journal, n) && Memory(l.journal, m)[key].epoch <= Memory(l.journal, n)[key].epoch
  {
    hide Replay, After, FilesOk, EntriesOk;
    if m < n {
      EpochsRise(l, m, n - 1, key);
      assert Evolves(Memory(l.journal, n - 1), Memory(l.journal, n - 1 + 1));
    }
  }

  /** While the daemon runs, a transferable assignment is left only by restoring its own snapshot at a higher epoch. */
  lemma TransferableLeftByRestore(s: System, step: Step, key: Key)
    requires SystemOk(s) && Enabled(s, step) && !step.Crash?
    requires key in s.ledger.entries && s.ledger.entries[key].state.Transferable?
    requires var after := Next(s, step).ledger.entries; key !in after || after[key] != s.ledger.entries[key]
    ensures step.Invoke? && step.call.BeginRestore? && step.call.key == key && Wanted(s.ledger, step.call).Ok?
    ensures Some(step.call.snapshot) == s.ledger.entries[key].snapshot
    ensures var after := Next(s, step).ledger.entries;
            key in after && after[key].state.Restoring? && after[key].epoch > s.ledger.entries[key].epoch
  {
    hide Replay, After, FilesOk, Evolving, CallsOk, CallsDurable, Wanted, Log, Compact, FailBusy;
    match step
    case Invoke(call) =>
      if Wanted(s.ledger, call).Ok? {
        WantedFollows(s.ledger, call);
        LogGrows(s.ledger, Wanted(s.ledger, call).value);
        RestoreCall(s.ledger, call);
      }
    case Reconcile =>
      FailBusyFacts(s.ledger.entries);
      CompactEntries(s.ledger.(entries := FailBusy(s.ledger.entries)));
    case _ =>
  }

  lemma RestoreCall(l: Ledger, call: Call)
    requires Wanted(l, call).Ok? && Wanted(l, call).value.state.Restoring?
    ensures call.BeginRestore? && Wanted(l, call).value.snapshot == Some(call.snapshot)
  {
  }

  lemma CompactEntries(l: Ledger)
    ensures Compact(l).entries == l.entries
  {
  }

  /** A step that logs the restore of `p`'s snapshot; attempts that are refused do not count. */
  predicate Restores(s: System, step: Step, p: Record) {
    && step.Invoke? && step.call.BeginRestore? && step.call.key == p.key && Some(step.call.snapshot) == p.snapshot
    && Wanted(s.ledger, step.call).Ok?
  }

  /** Once marking an assignment transferable has been reported, it stays exactly that, through crashes and
      recoveries, until a restore of the same snapshot has begun. */
  lemma {:induction false} TransferableUntilRestored(states: seq<System>, steps: seq<Step>, i: nat, j: nat, p: Logged)
    requires Run(states, steps) && i <= j < |states|
    requires p in states[i].returned && p.record.state.Transferable?
    requires p.record.key in states[i].ledger.entries && states[i].ledger.entries[p.record.key] == p.record
    requires forall k | i <= k < j :: !Restores(states[k], steps[k], p.record)
    ensures p.record.key in states[j].ledger.entries && states[j].ledger.entries[p.record.key] == p.record
  {
    hide SystemOk, Next;
    var key := p.record.key;
    if i < j {
      TransferableUntilRestored(states, steps, i, j - 1, p);
      var s, step := states[j - 1], steps[j - 1];
      assert Enabled(s, step) && states[j - 1 + 1] == Next(s, step);
      RunOk(states, steps, j - 1);
      ReturnedGrows(states, steps, i, j - 1);
      if step.Crash? {
        CrashKeepsReturned(s, step.commands, p);
      } else if !(key in states[j].ledger.entries && states[j].ledger.entries[key] == p.record) {
        assert !Restores(s, steps[j - 1], p.record);
        TransferableLeftByRestore(s, step, key);
      }
    }
  }

  lemma CrashKeepsReturned(s: System, n: nat, p: Logged)
    requires SystemOk(s) && n <= |s.ledger.journal.queue| && p in s.returned && p.record.state.Transferable?
    requires p.record.key in s.ledger.entries && s.ledger.entries[p.record.key] == p.record
    ensures var after := Next(s, Crash(n)).ledger.entries;
            p.record.key in after && after[p.record.key] == p.record
  {
    hide Replay, After, FilesOk, Evolving, CallsOk, EntriesOk;
    var j := s.ledger.journal;
    assert Durable(j, p.(due := 0));
    assert Reached(Memory(j, n), p.record);
    EpochsRise(s.ledger, n, |j.queue|, p.record.key);
  }

  /** In every state a fence, a transferable snapshot or a restore names its snapshot, and a fresh, active or
      stopped assignment names none. */
  lemma SnapshotsFollowState(states: seq<System>, steps: seq<Step>, i: nat, key: Key)
    requires Run(states, steps) && i < |states| && key in states[i].ledger.entries
    ensures RecordOk(key, states[i].ledger.entries[key])
  {
    hide Run, FilesOk, Evolving, CallsOk, CallsDurable;
    RunOk(states, steps, i);
  }
}
