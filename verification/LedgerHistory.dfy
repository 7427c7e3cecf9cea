/** The assignment ledger seen from outside: what every call is answered, given what the last restart found and the calls
    answered since. */
module LedgerHistory {
  import opened Orders
  import opened Outcomes
  import opened Numbers
  import opened Journals
  import opened AssignmentLedgers
  import opened AssignmentLedgerRuns

  /** What a restart found, a record that a call logged, or a recovery. */
  datatype Event = Found(entries: Entries) | Said(record: Record) | Recovered

  /** What has happened since the last restart, and what that restart found. */
  ghost function History(states: seq<System>, steps: seq<Step>, i: nat): seq<Event>
    requires Run(states, steps) && i < |states|
  {
    if i == 0 then []
    else
      var s, before := states[i - 1], History(states, steps, i - 1);
      assert Enabled(s, steps[i - 1]);
      match steps[i - 1]
      case Invoke(call) => if Wanted(s.ledger, call).Ok? then before + [Said(Wanted(s.ledger, call).value)] else before
      case Reconcile => before + [Recovered]
      case Crash(n) => [Found(Replay(After(s.ledger.journal, n)))]
      case _ => before
  }

  /** The epochs of the key that an event mentions. */
  function Mentioned(e: Event, key: Key): nat {
    match e
    case Found(entries) => if key in entries then entries[key].epoch else 0
    case Said(r) => if r.key == key then r.epoch else 0
    case Recovered => 0
  }

  /** The highest epoch ever mentioned, or zero. */
  function Highest(h: seq<Event>, key: Key): nat {
    if h == [] then 0 else Max(Highest(h[..|h| - 1], key), Mentioned(h[|h| - 1], key))
  }

  /** The assignment of the key as the events leave it: the last record mentioned, failed if a recovery found it under
      way. */
  function Current(h: seq<Event>, key: Key): Option<Record> {
    if h == [] then None
    else
      var before := Current(h[..|h| - 1], key);
      match h[|h| - 1]
      case Found(entries) => if key in entries then Some(entries[key]) else before
      case Said(r) => if r.key == key then Some(r) else before
      case Recovered => if before.Some? && before.value.state.Busy() then Some(before.value.(state := Failed)) else before
  }

  /** The keys mentioned. */
  function Keys(h: seq<Event>): set<Key> {
    if h == [] then {}
    else
      Keys(h[..|h| - 1]) + match h[|h| - 1]
                           case Found(entries) => entries.Keys
                           case Said(r) => {r.key}
                           case Recovered => {}
  }

  // ---------- The ledger is what the history says ----------

  ghost predicate Agrees(h: seq<Event>, entries: Entries) {
    && Keys(h) == entries.Keys
    && forall k :: if k in entries then Current(h, k) == Some(entries[k]) && Highest(h, k) == entries[k].epoch
                   else Current(h, k) == None && Highest(h, k) == 0
  }

  lemma SaidAgrees(h: seq<Event>, entries: Entries, r: Record)
    requires Agrees(h, entries) && (r.key in entries ==> entries[r.key].epoch <= r.epoch)
    ensures Agrees(h + [Said(r)], entries[r.key := r])
  {
    var g := h + [Said(r)];
    assert g[..|g| - 1] == h;
  }

  lemma RecoveredAgrees(h: seq<Event>, entries: Entries)
    requires Agrees(h, entries)
    ensures Agrees(h + [Recovered], FailBusy(entries))
  {
    var g := h + [Recovered];
    assert g[..|g| - 1] == h;
  }

  lemma FoundAgrees(entries: Entries)
    ensures Agrees([Found(entries)], entries)
  {
    var g := [Found(entries)];
    assert g[..|g| - 1] == [];
    assert Keys(g) == entries.Keys;
    forall k ensures Current(g, k) == (if k in entries then Some(entries[k]) else None) && Highest(g, k) == Mentioned(g[0], k) {
    }
  }

  lemma StartAgrees()
    ensures Agrees([], Start().ledger.entries)
  {
  }

  lemma {:induction false} HistoryAgrees(states: seq<System>, steps: seq<Step>, i: nat)
    requires Run(states, steps) && i < |states|
    ensures Agrees(History(states, steps, i), states[i].ledger.entries)
    ensures EntriesOk(states[i].ledger.entries)
  {
    hide Agrees, SystemOk, Wanted, Log, Replay, After, Compact, EntriesOk, FailBusy;
    RunOk(states, steps, i);
    SystemEntries(states[i]);
    if i == 0 {
      StartAgrees();
    } else {
      HistoryAgrees(states, steps, i - 1);
      var s, step, h := states[i - 1], steps[i - 1], History(states, steps, i - 1);
      assert Enabled(s, step) && states[i - 1 + 1] == Next(s, step);
      match step
      case Invoke(call) =>
        if Wanted(s.ledger, call).Ok? {
          WantedRises(s.ledger, call);
          LogGrows(s.ledger, Wanted(s.ledger, call).value);
          SaidAgrees(h, s.ledger.entries, Wanted(s.ledger, call).value);
        }
      case Reconcile =>
        RecoveredAgrees(h, s.ledger.entries);
        CompactEntries(s.ledger.(entries := FailBusy(s.ledger.entries)));
      case Crash(n) =>
        FoundAgrees(Replay(After(s.ledger.journal, n)));
        CompactEntries(Ledger(Replay(After(s.ledger.journal, n)), 0, Journal(After(s.ledger.journal, n), [], 0)));
      case _ =>
    }
  }

  lemma SystemEntries(s: System)
    requires SystemOk(s)
    ensures EntriesOk(s.ledger.entries)
  {
  }

  lemma WantedRises(l: Ledger, call: Call)
    requires EntriesOk(l.entries) && Wanted(l, call).Ok?
    ensures var r := Wanted(l, call).value; r.key in l.entries ==> l.entries[r.key].epoch <= r.epoch
  {
    WantedFollows(l, call);
  }

  // ---------- The answers ----------

  function Lookup(entries: Entries, key: Key): Option<Record> {
    if key in entries then Some(entries[key]) else None
  }

  ghost predicate UnderWay(h: seq<Event>, key: Key) {
    Current(h, key).Some? && Current(h, key).value.state.Busy()
  }

  /** The snapshot that the key waits to be restored from. */
  ghost function Parked(h: seq<Event>, key: Key): Option<Identifier> {
    if Current(h, key).Some? && Current(h, key).value.state.Transferable? then Current(h, key).value.snapshot else None
  }

  ghost predicate Room(h: seq<Event>, key: Key) {
    key in Keys(h) || |Keys(h)| < MAXIMUM_ASSIGNMENTS
  }

  function BeginCall(key: Key, requested: Option<Epoch>, snapshot: Option<Identifier>): Call {
    if snapshot.Some? then BeginRestore(key, requested, snapshot.value) else BeginNew(key, requested)
  }

  lemma BeginOn(l: Ledger, key: Key, requested: Option<Epoch>, state: State, snapshot: Option<Identifier>)
    requires EntriesOk(l.entries) && (state.Provisioning? || state.Restoring?) && (state.Restoring? <==> snapshot.Some?)
    ensures var a, r := Lookup(l.entries, key), Begin(l, key, requested, state, snapshot);
            var highest := if a.Some? then a.value.epoch else 0;
            var epoch := if requested.Some? then requested.value else highest + 1;
            var above := highest < epoch <= U64_MAX;
            var room, busy := a.Some? || |l.entries| < MAXIMUM_ASSIGNMENTS, a.Some? && a.value.state.Busy();
            var itself := a.Some? && a.value.state.Transferable? ==> a.value.snapshot == snapshot;
            && (r.Ok? <==> !busy && above && itself && room)
            && (r.Ok? ==> r.value == Record(key, epoch, state, snapshot))
            && (r == Err(LedgerFull) <==> !room)
            && (r == Err(AlreadyActive) <==> busy)
            && (r == Err(EpochOverflow) <==> room && !busy && requested.None? && !above)
            && (r == Err(StaleEpoch) <==> room && !busy && requested.Some? && !above)
            && (r == Err(MustRestoreSnapshot) <==> !busy && above && !itself)
  {
    assert key in l.entries ==> RecordOk(key, l.entries[key]);
  }

  /** A begin is accepted if and only if no assignment of the key is under way, the epoch asked for is above all of its
      epochs, a transferable snapshot is being restored as itself, and there is room. It logs and reports the epoch asked
      for, or else the one after the highest. */
  lemma BeginAnswered(
    states: seq<System>, steps: seq<Step>, i: nat, key: Key, requested: Option<Epoch>, snapshot: Option<Identifier>)
    requires Run(states, steps) && i < |states|
    ensures var h, r := History(states, steps, i), Wanted(states[i].ledger, BeginCall(key, requested, snapshot));
            var epoch := if requested.Some? then requested.value else Highest(h, key) + 1;
            var above := Highest(h, key) < epoch <= U64_MAX;
            var itself := Parked(h, key).Some? ==> Parked(h, key) == snapshot;
            && (r.Ok? <==> !UnderWay(h, key) && above && itself && Room(h, key))
            && (r.Ok? ==> r.value == Record(key, epoch, if snapshot.Some? then Restoring else Provisioning, snapshot))
            && (r == Err(LedgerFull) <==> !Room(h, key))
            && (r == Err(AlreadyActive) <==> UnderWay(h, key))
            && (r == Err(EpochOverflow) <==> Room(h, key) && !UnderWay(h, key) && requested.None? && !above)
            && (r == Err(StaleEpoch) <==> Room(h, key) && !UnderWay(h, key) && requested.Some? && !above)
            && (r == Err(MustRestoreSnapshot) <==> !UnderWay(h, key) && above && !itself)
  {
    HistoryAgrees(states, steps, i);
    var h, l := History(states, steps, i), states[i].ledger;
    hide Run, History, Keys, Current, Highest, Begin, EntriesOk;
    assert |l.entries.Keys| == |l.entries|;
    ParkedNames(h, l.entries, key);
    BeginOn(l, key, requested, if snapshot.Some? then Restoring else Provisioning, snapshot);
  }

  lemma ParkedNames(h: seq<Event>, entries: Entries, key: Key)
    requires Agrees(h, entries) && EntriesOk(entries)
    ensures Parked(h, key).Some? <==> key in entries && entries[key].state.Transferable?
  {
    hide Keys, Current, Highest;
    assert key in entries ==> RecordOk(key, entries[key]);
  }

  /** A call that is waiting or has returned was made, and logged its record then. */
  lemma {:induction false} WasMade(states: seq<System>, steps: seq<Step>, k: nat, p: Logged) returns (i: nat)
    requires Run(states, steps) && k < |states| && p in states[k].pending + states[k].returned
    ensures i < k && steps[i].Invoke? && Wanted(states[i].ledger, steps[i].call) == Ok(p.record) && p.begins == Begins(steps[i].call)
  {
    hide Wanted, Log, Open, Recover;
    var s, step := states[k - 1], steps[k - 1];
    assert Enabled(s, step) && states[k - 1 + 1] == Next(s, step);
    if p in s.pending + s.returned {
      i := WasMade(states, steps, k - 1, p);
    } else {
      i := k - 1;
    }
  }

  /** A begin that reports success was asked for exactly the epoch it reports, or was left the choice and took the one
      after the highest it knew of. */
  lemma BeginReports(states: seq<System>, steps: seq<Step>, k: nat) returns (i: nat)
    requires Run(states, steps) && k < |steps| && steps[k].Return? && steps[k].logged.begins
    ensures i < k && steps[i].Invoke? && Begins(steps[i].call)
    ensures var call, record := steps[i].call, steps[k].logged.record;
            && record.key == call.key
            && record.epoch == if call.requested.Some? then call.requested.value
                               else Highest(History(states, steps, i), call.key) + 1
  {
    assert Enabled(states[k], steps[k]);
    i := WasMade(states, steps, k, steps[k].logged);
    var call := steps[i].call;
    var snapshot := if call.BeginRestore? then Some(call.snapshot) else None;
    BeginAnswered(states, steps, i, call.key, call.requested, snapshot);
    assert call == BeginCall(call.key, call.requested, snapshot);
  }

  /** No restart makes the ledger forget an epoch that was reported. */
  lemma ReportedIsCovered(states: seq<System>, steps: seq<Step>, i: nat, p: Logged)
    requires Run(states, steps) && i < |states| && p in states[i].returned
    ensures p.record.epoch <= Highest(History(states, steps, i), p.record.key)
  {
    HistoryAgrees(states, steps, i);
    RunOk(states, steps, i);
    hide Run, History, Keys, Current, Highest, SystemOk, Reached;
    AllReached(states[i], p);
    ReachedEpoch(states[i].ledger.entries, p.record);
  }

  /** The key as the history leaves it is the key as the ledger has it. */
  lemma Known(states: seq<System>, steps: seq<Step>, i: nat, key: Key)
    requires Run(states, steps) && i < |states|
    ensures var a := Current(History(states, steps, i), key);
            && a == Lookup(states[i].ledger.entries, key)
            && (a.Some? ==> RecordOk(key, a.value) && Highest(History(states, steps, i), key) == a.value.epoch)
  {
    HistoryAgrees(states, steps, i);
    hide Run, History, Keys, Current, Highest, RecordOk;
  }

  /** Fencing is accepted for the active assignment of that epoch, and for no other. */
  lemma FencingAnswered(states: seq<System>, steps: seq<Step>, i: nat, key: Key, epoch: Epoch, snapshot: Identifier)
    requires Run(states, steps) && i < |states|
    ensures var a, r := Current(History(states, steps, i), key), Wanted(states[i].ledger, BeginFencing(key, epoch, snapshot));
            && (r.Ok? <==> a == Some(Record(key, epoch, Active, None)))
            && (r.Ok? ==> r.value == Record(key, epoch, Fencing, Some(snapshot)))
  {
    hide History, Current, Highest;
    Known(states, steps, i, key);
    var l := states[i].ledger;
    hide Run;
    FencingOn(l, key, epoch, snapshot);
  }

  lemma FencingOn(l: Ledger, key: Key, epoch: Epoch, snapshot: Identifier)
    requires Lookup(l.entries, key).Some? ==> RecordOk(key, Lookup(l.entries, key).value)
    ensures var r := Transition(l, key, epoch, Fencing, Some(snapshot));
            && (r.Ok? <==> Lookup(l.entries, key) == Some(Record(key, epoch, Active, None)))
            && (r.Ok? ==> r.value == Record(key, epoch, Fencing, Some(snapshot)))
  {
  }

  /** A fence becomes transferable with its own snapshot, and with no other. */
  lemma TransferableAnswered(states: seq<System>, steps: seq<Step>, i: nat, key: Key, epoch: Epoch, snapshot: Identifier)
    requires Run(states, steps) && i < |states|
    ensures var a, r := Current(History(states, steps, i), key), Wanted(states[i].ledger, MarkTransferable(key, epoch, snapshot));
            && (r.Ok? <==> a == Some(Record(key, epoch, Fencing, Some(snapshot))))
            && (r.Ok? ==> r.value == Record(key, epoch, Transferable, Some(snapshot)))
  {
    hide History, Current, Highest;
    Known(states, steps, i, key);
    var l := states[i].ledger;
    hide Run;
    TransferableOn(l, key, epoch, snapshot);
  }

  lemma TransferableOn(l: Ledger, key: Key, epoch: Epoch, snapshot: Identifier)
    requires Lookup(l.entries, key).Some? ==> RecordOk(key, Lookup(l.entries, key).value)
    ensures var r := Transition(l, key, epoch, Transferable, Some(snapshot));
            && (r.Ok? <==> Lookup(l.entries, key) == Some(Record(key, epoch, Fencing, Some(snapshot))))
            && (r.Ok? ==> r.value == Record(key, epoch, Transferable, Some(snapshot)))
  {
  }

  /** The moves that need no snapshot. */
  const MOVES: set<(State, State)> := {
    (Provisioning, Active), (Restoring, Active), (Fencing, Active),
    (Provisioning, Stopped), (Active, Stopped),
    (Provisioning, Failed), (Restoring, Failed), (Active, Failed), (Fencing, Failed)
  }

  /** Any other move is accepted if and only if it is one of these, of the latest epoch. A failed assignment still names the
      snapshot it was fenced for or restored from; an active or stopped one names none. */
  lemma MarkAnswered(states: seq<System>, steps: seq<Step>, i: nat, key: Key, epoch: Epoch, state: State)
    requires Run(states, steps) && i < |states|
    ensures var a, r := Current(History(states, steps, i), key), Wanted(states[i].ledger, Mark(key, epoch, state));
            && (r.Ok? <==> a.Some? && a.value.epoch == epoch && (a.value.state, state) in MOVES)
            && (r.Ok? ==> r.value == Record(key, epoch, state, if state.Failed? then a.value.snapshot else None))
  {
    hide History, Current, Highest;
    Known(states, steps, i, key);
    var l := states[i].ledger;
    hide Run;
    MarkOn(l, key, epoch, state);
  }

  lemma MarkOn(l: Ledger, key: Key, epoch: Epoch, state: State)
    requires Lookup(l.entries, key).Some? ==> RecordOk(key, Lookup(l.entries, key).value)
    ensures var a, r := Lookup(l.entries, key), Transition(l, key, epoch, state, None);
            && (r.Ok? <==> a.Some? && a.value.epoch == epoch && (a.value.state, state) in MOVES)
            && (r.Ok? ==> r.value == Record(key, epoch, state, if state.Failed? then a.value.snapshot else None))
  {
    if key in l.entries { MovesAreValid(l.entries[key].state, state); }
    hide ValidTransition;
  }

  lemma MovesAreValid(from: State, to: State)
    ensures (from, to) in MOVES <==> ValidTransition(from, to) && !to.Fencing? && !to.Transferable?
  {
  }

  /** A sandbox may be used if and only if its latest assignment is active, and of the epoch that is named. */
  lemma CurrentAnswered(states: seq<System>, steps: seq<Step>, i: nat, key: Key, requested: Option<Epoch>)
    requires Run(states, steps) && i < |states|
    ensures var a, r := Current(History(states, steps, i), key), RequireCurrent(states[i].ledger, key, requested);
            && (r.Ok? <==> a.Some? && a.value.state.Active? && (requested.Some? ==> requested.value == a.value.epoch))
            && (r.Ok? ==> r.value == a.value.epoch == Highest(History(states, steps, i), key))
  {
    hide History, Current, Highest;
    Known(states, steps, i, key);
  }

  // ---------- What is written ----------

  /** Every command queued since the last restart, written or not. */
  ghost function Queued(states: seq<System>, steps: seq<Step>, i: nat): seq<Command<Record>>
    requires Run(states, steps) && i < |states|
  {
    var queue := states[i].ledger.journal.queue;
    if i == 0 || steps[i - 1].Crash? then queue
    else
      var before := states[i - 1].ledger.journal.queue;
      Queued(states, steps, i - 1) + if |before| <= |queue| then queue[|before|..] else []
  }

  /** What a call adds to the queue: its record, and a compaction if that makes it the 10,000th since the last. */
  function Adds(l: Ledger, r: Record): seq<Command<Record>> {
    [Append(r)] + if l.appends + 1 >= 10_000 then [Replace(Compacted(l.entries[r.key := r]))] else []
  }

  lemma LogAdds(l: Ledger, r: Record)
    ensures Log(l, r).journal.queue == l.journal.queue + Adds(l, r)
    ensures l.appends < 10_000 ==> Log(l, r).appends == if l.appends + 1 == 10_000 then 0 else l.appends + 1
  {
    hide Compacted;
  }

  lemma TrailingAdds(commands: seq<Command<Record>>, l: Ledger, r: Record)
    requires Trailing(commands) == l.appends < 10_000
    ensures Trailing(commands + Adds(l, r)) == Log(l, r).appends
  {
    hide Compacted;
    LogAdds(l, r);
    TrailingAppend(commands, Append(r));
    if l.appends + 1 >= 10_000 {
      var replace := Replace(Compacted(l.entries[r.key := r]));
      TrailingAppend(commands + [Append(r)], replace);
      assert commands + Adds(l, r) == commands + [Append(r)] + [replace];
    } else {
      assert commands + Adds(l, r) == commands + [Append(r)];
    }
  }

  lemma RecoverAdds(l: Ledger)
    ensures Recover(l) == l || (Recover(l).appends == 0 && |Recover(l).journal.queue| == |l.journal.queue| + 1
                                && Recover(l).journal.queue[|l.journal.queue|].Replace? && l.journal.queue < Recover(l).journal.queue)
  {
    hide Compacted;
  }

  lemma InvokeCounts(commands: seq<Command<Record>>, s: System, call: Call)
    requires Trailing(commands) == s.ledger.appends < 10_000
    ensures var before, after := s.ledger.journal.queue, Next(s, Invoke(call)).ledger;
            && |before| <= |after.journal.queue|
            && Trailing(commands + after.journal.queue[|before|..]) == after.appends
  {
    hide Wanted, Log, Adds, Trailing;
    var before, queue := s.ledger.journal.queue, Next(s, Invoke(call)).ledger.journal.queue;
    if Wanted(s.ledger, call).Ok? {
      var r := Wanted(s.ledger, call).value;
      LogAdds(s.ledger, r);
      assert queue[|before|..] == Adds(s.ledger, r);
      TrailingAdds(commands, s.ledger, r);
    } else {
      assert commands + queue[|before|..] == commands;
    }
  }

  lemma RecoverCounts(commands: seq<Command<Record>>, l: Ledger)
    requires Trailing(commands) == l.appends < 10_000
    ensures |l.journal.queue| <= |Recover(l).journal.queue|
    ensures Trailing(commands + Recover(l).journal.queue[|l.journal.queue|..]) == Recover(l).appends
  {
    hide Recover, Trailing;
    RecoverAdds(l);
    var before, queue := l.journal.queue, Recover(l).journal.queue;
    if Recover(l) == l {
      assert commands + queue[|before|..] == commands;
    } else {
      assert queue[|before|..] == [queue[|before|]];
      TrailingAppend(commands, queue[|before|]);
    }
  }

  lemma {:induction false} CountsAppends(states: seq<System>, steps: seq<Step>, i: nat)
    requires Run(states, steps) && i < |states|
    ensures Trailing(Queued(states, steps, i)) == states[i].ledger.appends < 10_000
  {
    RunOk(states, steps, i);
    assert states[i].ledger.appends < 10_000;
    hide SystemOk, Wanted, Log, Recover, Open, Replay, After, Trailing;
    if i == 0 {
      OpenQueue([]);
    } else {
      CountsAppends(states, steps, i - 1);
      var s, step, t, commands := states[i - 1], steps[i - 1], states[i], Queued(states, steps, i - 1);
      assert Enabled(s, step) && states[i - 1 + 1] == Next(s, step);
      var before, queue := s.ledger.journal.queue, t.ledger.journal.queue;
      match step
      case Invoke(call) => InvokeCounts(commands, s, call);
      case Reconcile => RecoverCounts(commands, s.ledger);
      case Crash(n) => OpenQueue(After(s.ledger.journal, n));
      case Flush(n) =>
        assert |queue| == |before| - n;
        assert commands + (if |before| <= |queue| then queue[|before|..] else []) == commands;
      case Return(_) => assert commands + queue[|before|..] == commands;
    }
  }

  lemma OpenQueue(file: seq<Record>)
    ensures Trailing(Open(file).journal.queue) == 0 == Open(file).appends
  {
    hide Replay, Compacted;
  }

  /** An accepted call queues its own record, and every 10,000th since the last compaction also a compaction of the entries;
      a refused call queues nothing. */
  lemma CallQueues(states: seq<System>, steps: seq<Step>, i: nat, call: Call)
    requires Run(states, steps) && i < |states|
    ensures var before, after := states[i], Next(states[i], Invoke(call));
            var wanted, due := Wanted(before.ledger, call), Trailing(Queued(states, steps, i)) == 9_999;
            after.ledger.journal.queue ==
            before.ledger.journal.queue
            + (if wanted.Err? then [] else [Append(wanted.value)] + if due then [Replace(Compacted(after.ledger.entries))] else [])
  {
    CountsAppends(states, steps, i);
    hide Run, Queued, Trailing, Wanted, Compacted;
    if Wanted(states[i].ledger, call).Ok? {
      LogAdds(states[i].ledger, Wanted(states[i].ledger, call).value);
      LogGrows(states[i].ledger, Wanted(states[i].ledger, call).value);
    }
  }
}
