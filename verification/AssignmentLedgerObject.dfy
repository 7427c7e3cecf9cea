/** The assignment ledger as the daemon holds it: a map, a counter and a journal, updated under one lock. */
module AssignmentLedgerObjects {
  import opened Orders
  import opened Outcomes
  import opened Numbers
  import opened Journals
  import opened AssignmentLedgers

  lemma {:induction false} ReplayGrows(records: seq<Record>, n: nat)
    requires n <= |records|
    ensures Replay(records[..n]).Keys <= Replay(records).Keys
    ensures |Replay(records[..n])| <= |Replay(records)|
    decreases |records| - n
  {
    if n == |records| {
      assert records[..n] == records;
    } else {
      ReplayGrows(records, n + 1);
      assert records[..n + 1][..n] == records[..n];
    }
    Fewer(Replay(records[..n]), Replay(records));
  }

  lemma Fewer(m: Entries, n: Entries)
    requires m.Keys <= n.Keys
    ensures |m| <= |n|
  {
    Subset(m.Keys, n.Keys);
    assert |m.Keys| == |m| && |n.Keys| == |n|;
  }

  lemma Subset(a: set<Key>, b: set<Key>)
    requires a <= b
    ensures |a| <= |b|
  {
    assert b == a + (b - a);
  }

  /** Reads the records of a file into a map, refusing a file beyond the recovery bounds. */
  method Load(records: seq<Record>) returns (r: Option<Entries>)
    ensures r.Some? <==> Loadable(records)
    ensures r.Some? ==> r.value == Replay(records)
  {
    if |records| > MAXIMUM_RECOVERY_RECORDS || Bytes(records, Size) > MAXIMUM_JOURNAL_BYTES {
      return None;
    }
    var entries: Entries := map[];
    for n := 0 to |records|
      invariant entries == Replay(records[..n]) && |entries| <= MAXIMUM_ASSIGNMENTS
    {
      assert records[..n + 1][..n] == records[..n];
      entries := entries[records[n].key := records[n]];
      if |entries| > MAXIMUM_ASSIGNMENTS {
        ReplayGrows(records, n + 1);
        return None;
      }
    }
    assert records[..|records|] == records;
    return Some(entries);
  }

  /** Opens the ledger on a file: refused if and only if the file does not load; otherwise the ledger holds what the
      file says, and the file's compaction is on its way. */
  method OpenLedger(file: seq<Record>) returns (r: Option<AssignmentLedger>)
    ensures r.Some? <==> Loadable(file)
    ensures r.Some? ==> fresh(r.value) && r.value.Value() == Open(file)
  {
    var loaded := Load(file);
    if loaded.None? {
      return None;
    }
    var ledger := new AssignmentLedger(file, loaded.value);
    return Some(ledger);
  }

  class AssignmentLedger {
    var entries: Entries
    var appends: nat
    var journal: Journal<Record>

    ghost function Value(): Ledger
      reads this
    {
      Ledger(entries, appends, journal)
    }

    constructor (file: seq<Record>, loaded: Entries)
      ensures Value() == Compact(Ledger(loaded, 0, Journal(file, [], 0)))
    {
      entries, appends, journal := loaded, 0, Journal(file, [], 0);
      new;
      EnqueueCompaction();
    }

    /** The lines of a compacted file, in key order. */
    method EncodeEntries() returns (records: seq<Record>)
      ensures records == Compacted(entries)
    {
      hide SortedScoped, RecordsAt;
      var keys := SortedScoped(entries.Keys);
      assert keys[..0] == [];
      NoRecords(entries);
      records := [];
      for n := 0 to |keys|
        invariant records == RecordsAt(entries, keys[..n])
      {
        RecordsAtNext(entries, keys, n);
        records := records + [entries[keys[n]]];
      }
      assert keys[..|keys|] == keys;
    }

    method EnqueueCompaction()
      modifies this
      ensures Value() == Compact(old(Value()))
    {
      appends := 0;
      var contents := EncodeEntries();
      journal := Enqueue(journal, Replace(contents));
    }

    /** Puts a record into the map, queues its line, and compacts when that is due. */
    method Log(record: Record)
      modifies this
      ensures Value() == AssignmentLedgers.Log(old(Value()), record)
    {
      entries := entries[record.key := record];
      journal := Enqueue(journal, Append(record));
      appends := appends + 1;
      if appends >= COMPACTION_INTERVAL {
        EnqueueCompaction();
      }
    }

    method BeginOperation(key: Key, requested: Option<Epoch>, state: State, snapshot: Option<Identifier>)
      returns (r: Result<Epoch, Error>)
      modifies this
      ensures var wanted := Begin(old(Value()), key, requested, state, snapshot);
              if wanted.Ok? then r == Ok(wanted.value.epoch) && Value() == AssignmentLedgers.Log(old(Value()), wanted.value)
              else r == Err(wanted.error) && Value() == old(Value())
      ensures r.Ok? && requested.Some? ==> r.value == requested.value
      ensures r.Ok? && requested.None? ==> r.value == if key in old(entries) then old(entries)[key].epoch + 1 else 1
    {
      if |entries| >= MAXIMUM_ASSIGNMENTS && key !in entries {
        return Err(LedgerFull);
      }
      if key in entries && entries[key].state.Busy() {
        return Err(AlreadyActive);
      }
      var epoch: Epoch := 1;
      if requested.Some? {
        epoch := requested.value;
      } else if key in entries {
        if entries[key].epoch == U64_MAX {
          return Err(EpochOverflow);
        }
        epoch := entries[key].epoch + 1;
      }
      if key in entries {
        if epoch <= entries[key].epoch {
          return Err(StaleEpoch);
        }
        if entries[key].state.Transferable? && (state != Restoring || entries[key].snapshot != snapshot) {
          return Err(MustRestoreSnapshot);
        }
      }
      Log(Record(key, epoch, state, snapshot));
      return Ok(epoch);
    }

    method Transition(key: Key, epoch: Epoch, state: State, snapshot: Option<Identifier>) returns (r: Result<(), Error>)
      modifies this
      ensures var wanted := AssignmentLedgers.Transition(old(Value()), key, epoch, state, snapshot);
              if wanted.Ok? then r == Ok(()) && Value() == AssignmentLedgers.Log(old(Value()), wanted.value)
              else r == Err(wanted.error) && Value() == old(Value())
    {
      if key !in entries {
        return Err(NoAssignment);
      }
      var previous := entries[key];
      if previous.epoch != epoch {
        return Err(EpochChanged);
      }
      if !ValidTransition(previous.state, state) {
        return Err(InvalidTransition);
      }
      if (state.Fencing? || state.Transferable?) && snapshot.None? {
        return Err(SnapshotRequired);
      }
      if previous.state.Fencing? && state.Transferable? && previous.snapshot != snapshot {
        return Err(SnapshotMismatch);
      }
      var record := previous.(state := state);
      if snapshot.Some? {
        record := record.(snapshot := snapshot);
      } else if state.Active? || state.Stopped? {
        record := record.(snapshot := None);
      }
      Log(record);
      return Ok(());
    }

    method RequireCurrent(key: Key, requested: Option<Epoch>) returns (r: Result<Epoch, Error>)
      ensures r == AssignmentLedgers.RequireCurrent(Value(), key, requested)
    {
      if key !in entries {
        return Err(NoAssignment);
      }
      var record := entries[key];
      if requested.Some? && requested.value != record.epoch {
        return Err(EpochChanged);
      }
      if !record.state.Active? {
        return Err(NotActive);
      }
      return Ok(record.epoch);
    }

    /** Fails every assignment that was under way, visiting the records one by one. */
    method ReconcileAfterRecovery()
      modifies this
      ensures Value() == Recover(old(Value()))
    {
      hide SortedScoped, Increasing, Compact, FailedFirst, FailIfBusy;
      ghost var before := entries;
      var keys := SortedScoped(entries.Keys);
      var modified := false;
      FailedNone(before, keys);
      for n := 0 to |keys|
        invariant entries == FailedFirst(before, keys, n) && appends == old(appends) && journal == old(journal)
        invariant modified <==> entries != before
      {
        FailedNext(before, keys, n);
        var record := entries[keys[n]];
        if record.state.Busy() {
          entries := entries[keys[n] := record.(state := Failed)];
          modified := true;
        }
      }
      FailedAll(before, keys);
      if !modified {
        return;
      }
      EnqueueCompaction();
    }
  }

  /** The entries with those under the first `n` keys failed if they were under way. */
  function FailedFirst(entries: Entries, keys: seq<Key>, n: nat): Entries
    requires n <= |keys|
  {
    map k | k in entries :: if k in keys[..n] then FailIfBusy(entries[k]) else entries[k]
  }

  lemma FailedNone(entries: Entries, keys: seq<Key>)
    ensures FailedFirst(entries, keys, 0) == entries
  {
  }

  lemma FailedNext(entries: Entries, keys: seq<Key>, n: nat)
    requires n < |keys| && NoDuplicates(keys) && forall k :: k in keys <==> k in entries
    ensures keys[n] in entries
    ensures var first, next, key := FailedFirst(entries, keys, n), FailedFirst(entries, keys, n + 1), keys[n];
            && key in first && first[key] == entries[key]
            && next == (if entries[key].state.Busy() then first[key := entries[key].(state := Failed)] else first)
            && (entries[key].state.Busy() ==> next != entries)
  {
    var key := keys[n];
    assert key in keys && keys[..n + 1] == keys[..n] + [key] && key !in keys[..n];
    var first, next := FailedFirst(entries, keys, n), FailedFirst(entries, keys, n + 1);
    if entries[key].state.Busy() {
      assert next[key] != entries[key];
      assert next == first[key := entries[key].(state := Failed)];
    } else {
      assert next == first;
    }
  }

  lemma FailedAll(entries: Entries, keys: seq<Key>)
    requires forall k :: k in keys <==> k in entries
    ensures FailedFirst(entries, keys, |keys|) == FailBusy(entries)
  {
    assert keys[..|keys|] == keys;
  }
}
