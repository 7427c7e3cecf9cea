/** The assignment ledger of the worker daemon as values: what each call does under the lock, and what a
    restart makes of the journal. The ledger as an object is in `AssignmentLedgerObject.dfy`; crash safety and
    ownership over whole runs are in `AssignmentLedgerRuns.dfy`. */
module AssignmentLedgers {
  import opened Orders
  import opened Outcomes
  import opened Numbers
  import opened Journals

  const MAXIMUM_ASSIGNMENTS: nat := 100_000
  const COMPACTION_INTERVAL: nat := 10_000
  const MAXIMUM_RECOVERY_RECORDS: nat := MAXIMUM_ASSIGNMENTS + COMPACTION_INTERVAL

  type Key = ScopedName

  type Epoch = n: nat | 1 <= n <= U64_MAX witness 1

  datatype State = Provisioning | Restoring | Active | Fencing | Transferable | Stopped | Failed {
    /** The states that keep the sandbox from being assigned again. */
    predicate Busy() {
      Provisioning? || Restoring? || Active? || Fencing?
    }
  }

  datatype Record = Record(key: Key, epoch: Epoch, state: State, snapshot: Option<Identifier>)

  type Entries = map<Key, Record>

  datatype Error =
    | LedgerFull | AlreadyActive | EpochOverflow | StaleEpoch | MustRestoreSnapshot
    | NoAssignment | EpochChanged | InvalidTransition | SnapshotRequired | SnapshotMismatch | NotActive

  datatype Ledger = Ledger(entries: Entries, appends: nat, journal: Journal<Record>)

  // ---------- Records and files ----------

  /** Reading a file front to back: a later record replaces an earlier one for the same key. */
  function Replay(records: seq<Record>): Entries {
    if records == [] then map[]
    else
      var last := records[|records| - 1];
      Replay(records[..|records| - 1])[last.key := last]
  }

  function RecordsAt(entries: Entries, keys: seq<Key>): seq<Record>
    requires forall k | k in keys :: k in entries
  {
    seq(|keys|, i requires 0 <= i < |keys| => entries[keys[i]])
  }

  lemma RecordsAtNext(entries: Entries, keys: seq<Key>, n: nat)
    requires n < |keys| && forall k | k in keys :: k in entries
    ensures keys[n] in entries
    ensures RecordsAt(entries, keys[..n + 1]) == RecordsAt(entries, keys[..n]) + [entries[keys[n]]]
  {
    assert keys[n] in keys;
  }

  lemma NoRecords(entries: Entries)
    ensures RecordsAt(entries, []) == []
  {
  }

  /** The contents of a compacted file: one record for each key, in key order. */
  function Compacted(entries: Entries): seq<Record> {
    RecordsAt(entries, SortedScoped(entries.Keys))
  }

  function StateName(state: State): string {
    match state
    case Provisioning => "provisioning"
    case Restoring => "restoring"
    case Active => "active"
    case Fencing => "fencing"
    case Transferable => "transferable"
    case Stopped => "stopped"
    case Failed => "failed"
  }

  /** The line written for one record. Identifiers need no escaping. */
  function Encode(r: Record): string {
    "{\"schema_version\":1," + "\"key\":{\"scope\":" + "{\"tenant_id\":\"" + r.key.tenant
    + "\",\"workspace_id\":\"" + r.key.workspace
    + "\"},\"sandbox_id\":\"" + r.key.name
    + "\"},\"epoch\":" + Decimal(r.epoch)
    + ",\"state\":\"" + StateName(r.state) + "\""
    + (if r.snapshot.Some? then ",\"snapshot_id\":\"" + r.snapshot.value + "\"" else "")
    + "}\n"
  }

  function Size(r: Record): nat {
    |Encode(r)|
  }

  const RECORD_BYTES: nat := 512

  lemma RecordFits(r: Record)
    ensures Size(r) <= RECORD_BYTES <= MAXIMUM_RECORD_BYTES
  {
    U64Digits(r.epoch);
  }

  /** The reader's limits, and the limit on distinct keys. */
  predicate Loadable(records: seq<Record>) {
    && |records| <= MAXIMUM_RECOVERY_RECORDS
    && Bytes(records, Size) <= MAXIMUM_JOURNAL_BYTES
    && |Replay(records)| <= MAXIMUM_ASSIGNMENTS
  }

  lemma FewRecordsFit(records: seq<Record>)
    requires |records| <= MAXIMUM_RECOVERY_RECORDS
    ensures Bytes(records, Size) <= MAXIMUM_JOURNAL_BYTES
  {
    forall r | r in records ensures Size(r) <= RECORD_BYTES { RecordFits(r); }
    BytesBound(records, Size, RECORD_BYTES);
  }

  /** The journal's own limits on what it queues never refuse a record or a compacted file. */
  lemma JournalAccepts(r: Record, entries: Entries)
    requires |entries| <= MAXIMUM_ASSIGNMENTS
    ensures 0 < Size(r) <= MAXIMUM_RECORD_BYTES && Encode(r)[Size(r) - 1] == '\n'
    ensures Bytes(Compacted(entries), Size) <= MAXIMUM_JOURNAL_BYTES
  {
    hide Size, Bytes;
    LineEnds(r);
    RecordFits(r);
    CompactedLength(entries);
    FewRecordsFit(Compacted(entries));
  }

  lemma LineEnds(r: Record)
    ensures Size(r) > 0 && Encode(r)[Size(r) - 1] == '\n'
  {
  }

  lemma CompactedLength(entries: Entries)
    ensures |Compacted(entries)| == |entries|
  {
    assert |entries.Keys| == |entries|;
  }

  lemma {:induction false} ReplayDistinct(records: seq<Record>)
    requires forall i, j | 0 <= i < j < |records| :: records[i].key != records[j].key
    ensures Replay(records).Keys == set r | r in records :: r.key
    ensures forall r | r in records :: r.key in Replay(records) && Replay(records)[r.key] == r
  {
    if records != [] {
      var n := |records| - 1;
      ReplayDistinct(records[..n]);
      assert records == records[..n] + [records[n]];
    }
  }

  lemma CompactedFacts(entries: Entries)
    requires forall k | k in entries :: entries[k].key == k
    ensures |Compacted(entries)| == |entries|
    ensures forall i, j | 0 <= i < j < |Compacted(entries)| :: Compacted(entries)[i].key != Compacted(entries)[j].key
    ensures forall r | r in Compacted(entries) :: r.key in entries && r == entries[r.key]
    ensures forall k | k in entries :: entries[k] in Compacted(entries)
  {
    hide SortedScoped, Increasing;
    var keys := SortedScoped(entries.Keys);
    var records := Compacted(entries);
    assert |entries.Keys| == |entries|;
    assert forall i | 0 <= i < |keys| :: keys[i] in keys && records[i] == entries[keys[i]];
    forall k | k in entries ensures entries[k] in records {
      assert k in keys;
      var i :| 0 <= i < |keys| && keys[i] == k;
      assert records[i] == entries[k];
    }
  }

  /** Compaction loses nothing: a compacted file reads back as the entries it was made from. */
  lemma CompactedReplays(entries: Entries)
    requires forall k | k in entries :: entries[k].key == k
    ensures Replay(Compacted(entries)) == entries
    ensures |Compacted(entries)| == |entries|
  {
    hide Compacted, Replay;
    CompactedFacts(entries);
    var records := Compacted(entries);
    ReplayDistinct(records);
    assert Replay(records).Keys == entries.Keys by {
      forall k | k in entries ensures k in Replay(records).Keys { assert entries[k] in records; }
    }
    forall k | k in entries ensures Replay(records)[k] == entries[k] { assert entries[k] in records; }
  }

  // ---------- Calls, under the lock ----------

  /** Compaction once enough records have been appended. */
  function Compact(l: Ledger): Ledger {
    l.(appends := 0, journal := Enqueue(l.journal, Replace(Compacted(l.entries))))
  }

  /** Puts a record into the map and its line into the queue. */
  function Log(l: Ledger, r: Record): Ledger {
    var logged := Ledger(l.entries[r.key := r], l.appends + 1, Enqueue(l.journal, Append(r)));
    if logged.appends < COMPACTION_INTERVAL then logged else Compact(logged)
  }

  function Begin(l: Ledger, key: Key, requested: Option<Epoch>, state: State, snapshot: Option<Identifier>)
    : Result<Record, Error>
  {
    if |l.entries| >= MAXIMUM_ASSIGNMENTS && key !in l.entries then Err(LedgerFull)
    else if key in l.entries && l.entries[key].state.Busy() then Err(AlreadyActive)
    else if requested.None? && key in l.entries && l.entries[key].epoch == U64_MAX then Err(EpochOverflow)
    else
      var epoch: Epoch := if requested.Some? then requested.value else if key in l.entries then l.entries[key].epoch + 1 else 1;
      if key in l.entries && epoch <= l.entries[key].epoch then Err(StaleEpoch)
      else if && key in l.entries && l.entries[key].state.Transferable?
              && (state != Restoring || l.entries[key].snapshot != snapshot) then Err(MustRestoreSnapshot)
      else Ok(Record(key, epoch, state, snapshot))
  }

  predicate ValidTransition(from: State, to: State) {
    match from
    case Provisioning => to.Active? || to.Stopped? || to.Failed?
    case Restoring => to.Active? || to.Failed?
    case Active => to.Fencing? || to.Stopped? || to.Failed?
    case Fencing => to.Active? || to.Transferable? || to.Failed?
    case _ => false
  }

  function Transition(l: Ledger, key: Key, epoch: Epoch, state: State, snapshot: Option<Identifier>): Result<Record, Error> {
    if key !in l.entries then Err(NoAssignment)
    else
      var previous := l.entries[key];
      if previous.epoch != epoch then Err(EpochChanged)
      else if !ValidTransition(previous.state, state) then Err(InvalidTransition)
      else if (state.Fencing? || state.Transferable?) && snapshot.None? then Err(SnapshotRequired)
      else if previous.state.Fencing? && state.Transferable? && previous.snapshot != snapshot then Err(SnapshotMismatch)
      else
        Ok(previous.(state := state,
                     snapshot := if snapshot.Some? then snapshot
                                 else if state.Active? || state.Stopped? then None
                                 else previous.snapshot))
  }

  /** The calls other parts of the daemon can make. */
  datatype Call =
    | BeginNew(key: Key, requested: Option<Epoch>)
    | BeginRestore(key: Key, requested: Option<Epoch>, snapshot: Identifier)
    | BeginFencing(key: Key, epoch: Epoch, snapshot: Identifier)
    | MarkTransferable(key: Key, epoch: Epoch, snapshot: Identifier)
    | Mark(key: Key, epoch: Epoch, state: State)

  predicate Begins(call: Call) {
    call.BeginNew? || call.BeginRestore?
  }

  /** The record a call wants to log. */
  function Wanted(l: Ledger, call: Call): Result<Record, Error> {
    match call
    case BeginNew(key, requested) => Begin(l, key, requested, Provisioning, None)
    case BeginRestore(key, requested, snapshot) => Begin(l, key, requested, Restoring, Some(snapshot))
    case BeginFencing(key, epoch, snapshot) => Transition(l, key, epoch, Fencing, Some(snapshot))
    case MarkTransferable(key, epoch, snapshot) => Transition(l, key, epoch, Transferable, Some(snapshot))
    case Mark(key, epoch, state) => Transition(l, key, epoch, state, None)
  }

  function RequireCurrent(l: Ledger, key: Key, requested: Option<Epoch>): Result<Epoch, Error> {
    if key !in l.entries then Err(NoAssignment)
    else if requested.Some? && requested.value != l.entries[key].epoch then Err(EpochChanged)
    else if !l.entries[key].state.Active? then Err(NotActive)
    else Ok(l.entries[key].epoch)
  }

  function FailIfBusy(r: Record): Record {
    if r.state.Busy() then r.(state := Failed) else r
  }

  function FailBusy(entries: Entries): Entries {
    map k | k in entries :: FailIfBusy(entries[k])
  }

  /** After a restart every assignment that was under way is failed. */
  function Recover(l: Ledger): Ledger {
    if FailBusy(l.entries) == l.entries then l else Compact(l.(entries := FailBusy(l.entries)))
  }

  /** Opening the ledger on a file that loads: the file is compacted at once. */
  function Open(file: seq<Record>): Ledger {
    Compact(Ledger(Replay(file), 0, Journal(file, [], 0)))
  }

  // ---------- Records stay well formed, and follow the protocol ----------

  /** A fence, a transferable snapshot and a restore name their snapshot; a fresh, active or stopped assignment does not. */
  predicate RecordOk(key: Key, r: Record) {
    && r.key == key
    && (r.state.Fencing? || r.state.Transferable? || r.state.Restoring? ==> r.snapshot.Some?)
    && (r.state.Provisioning? || r.state.Active? || r.state.Stopped? ==> r.snapshot.None?)
  }

  predicate EntriesOk(entries: Entries) {
    && |entries| <= MAXIMUM_ASSIGNMENTS
    && forall k | k in entries :: RecordOk(k, entries[k])
  }

  /** What may follow a record of the same key. A finished assignment is left only by a higher epoch, and a
      transferable one only by restoring its own snapshot. */
  predicate Follows(r: Record, next: Record) {
    || next == r
    || (next.epoch == r.epoch && r.state.Busy())
    || (next.epoch > r.epoch && !r.state.Busy()
        && (r.state.Transferable? ==> next.state.Restoring? && next.snapshot == r.snapshot))
  }

  ghost predicate Evolves(m: Entries, n: Entries) {
    forall k | k in m :: k in n && Follows(m[k], n[k])
  }

  lemma WantedFollows(l: Ledger, call: Call)
    requires EntriesOk(l.entries) && Wanted(l, call).Ok?
    ensures var r := Wanted(l, call).value;
            && r.key == call.key && RecordOk(r.key, r)
            && (r.key in l.entries ==> Follows(l.entries[r.key], r))
            && (Begins(call) ==> r.state.Busy() && (r.key in l.entries ==> l.entries[r.key].epoch < r.epoch))
            && (!Begins(call) ==> r.key in l.entries)
            && |l.entries[r.key := r]| <= MAXIMUM_ASSIGNMENTS
  {
    var r := Wanted(l, call).value;
    var after := l.entries[r.key := r];
    assert |after.Keys| == |after| && |l.entries.Keys| == |l.entries|;
    assert after.Keys == l.entries.Keys + {r.key};
  }

  lemma FailBusyFacts(entries: Entries)
    requires EntriesOk(entries)
    ensures EntriesOk(FailBusy(entries)) && Evolves(entries, FailBusy(entries))
    ensures forall k | k in entries :: !FailBusy(entries)[k].state.Busy()
  {
    assert FailBusy(entries).Keys == entries.Keys;
    assert |FailBusy(entries).Keys| == |FailBusy(entries)| && |entries.Keys| == |entries|;
  }

  /** Recovery changes nothing the second time, and leaves no assignment current. */
  lemma RecoveryIsFinal(l: Ledger, key: Key, requested: Option<Epoch>)
    requires EntriesOk(l.entries)
    ensures Recover(Recover(l)) == Recover(l)
    ensures RequireCurrent(Recover(l), key, requested).Err?
  {
    FailBusyFacts(l.entries);
    var failed := FailBusy(l.entries);
    assert FailBusy(failed) == failed;
    assert Recover(l).entries == failed;
  }
}
