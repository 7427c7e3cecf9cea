/** The replay cache that makes a work-order nonce usable once, as values: what `consume` does under the lock and
    what a restart makes of the journal. A key is a tenant scope and the digest of a nonce. */
module ReplayCaches {
  import opened Orders
  import opened Outcomes
  import opened Numbers
  import opened Journals

  const MAXIMUM_LIVE_NONCES: nat := 100_000
  const COMPACTION_INTERVAL: nat := 10_000
  const MAXIMUM_RECOVERY_RECORDS: nat := MAXIMUM_LIVE_NONCES + COMPACTION_INTERVAL

  type Key = ScopedName

  type Millis = n: nat | n <= U64_MAX

  datatype Record = Record(key: Key, expires: Millis)

  type Entries = map<Key, Millis>

  datatype Error = AlreadyConsumed | CacheFull

  datatype Cache = Cache(entries: Entries, appends: nat, journal: Journal<Record>)

  function Retain(entries: Entries, now: nat): Entries {
    map k | k in entries && entries[k] > now :: entries[k]
  }

  // ---------- Files ----------

  /** The nonces of a file that are live at `now`; nothing when one of them appears twice. */
  function Live(records: seq<Record>, now: nat): Option<Entries> {
    if records == [] then Some(map[])
    else
      var last := records[|records| - 1];
      var before := Live(records[..|records| - 1], now);
      if before.None? || last.expires <= now then before
      else if last.key in before.value then None
      else Some(before.value[last.key := last.expires])
  }

  function Encode(r: Record): string {
    "{\"schema_version\":1," + "\"key\":{\"scope\":" + "{\"tenant_id\":\"" + r.key.tenant
    + "\",\"workspace_id\":\"" + r.key.workspace
    + "\"},\"nonce_digest\":\"" + r.key.name
    + "\"},\"expires_" + "unix_millis\":" + Decimal(r.expires) + "}\n"
  }

  function Size(r: Record): nat {
    |Encode(r)|
  }

  const RECORD_BYTES: nat := 512

  predicate NoZero(records: seq<Record>) {
    forall r | r in records :: r.expires != 0
  }

  /** What `load` accepts: the reader's limits, no zero expiry, no live nonce twice, not too many live ones. */
  predicate Loadable(records: seq<Record>, now: nat) {
    && |records| <= MAXIMUM_RECOVERY_RECORDS
    && Bytes(records, Size) <= MAXIMUM_JOURNAL_BYTES
    && NoZero(records)
    && Live(records, now).Some?
    && |Live(records, now).value| <= MAXIMUM_LIVE_NONCES
  }

  lemma FewRecordsFit(records: seq<Record>)
    requires |records| <= MAXIMUM_RECOVERY_RECORDS
    ensures Bytes(records, Size) <= MAXIMUM_JOURNAL_BYTES
  {
    forall r | r in records ensures Size(r) <= RECORD_BYTES { U64Digits(r.expires); }
    BytesBound(records, Size, RECORD_BYTES);
  }

  function RecordsAt(entries: Entries, keys: seq<Key>): seq<Record>
    requires forall k | k in keys :: k in entries
  {
    seq(|keys|, i requires 0 <= i < |keys| => Record(keys[i], entries[keys[i]]))
  }

  lemma RecordsAtNext(entries: Entries, keys: seq<Key>, n: nat)
    requires n < |keys| && forall k | k in keys :: k in entries
    ensures keys[n] in entries
    ensures RecordsAt(entries, keys[..n + 1]) == RecordsAt(entries, keys[..n]) + [Record(keys[n], entries[keys[n]])]
  {
    assert keys[n] in keys;
  }

  lemma NoRecords(entries: Entries)
    ensures RecordsAt(entries, []) == []
  {
  }

  function Compacted(entries: Entries): seq<Record> {
    RecordsAt(entries, SortedScoped(entries.Keys))
  }

  lemma {:induction false} LiveDistinct(records: seq<Record>, now: nat)
    requires forall i, j | 0 <= i < j < |records| :: records[i].key != records[j].key
    ensures Live(records, now).Some?
    ensures forall k :: k in Live(records, now).value <==> exists r :: r in records && r.key == k && r.expires > now
    ensures forall r | r in records && r.expires > now :: Live(records, now).value[r.key] == r.expires
  {
    if records != [] {
      var n := |records| - 1;
      LiveDistinct(records[..n], now);
      assert records == records[..n] + [records[n]];
      assert records[n] in records;
    }
  }

  lemma CompactedFacts(entries: Entries)
    ensures |Compacted(entries)| == |entries|
    ensures forall i, j | 0 <= i < j < |Compacted(entries)| :: Compacted(entries)[i].key != Compacted(entries)[j].key
    ensures forall r | r in Compacted(entries) :: r.key in entries && r.expires == entries[r.key]
    ensures forall k | k in entries :: Record(k, entries[k]) in Compacted(entries)
  {
    hide SortedScoped, Increasing;
    var keys := SortedScoped(entries.Keys);
    var records := Compacted(entries);
    assert |entries.Keys| == |entries|;
    assert forall i | 0 <= i < |keys| :: keys[i] in keys && records[i] == Record(keys[i], entries[keys[i]]);
    forall k | k in entries ensures Record(k, entries[k]) in records {
      assert k in keys;
      var i :| 0 <= i < |keys| && keys[i] == k;
      assert records[i] == Record(k, entries[k]);
    }
  }

  /** A compacted file holds the nonces it was made from. */
  lemma CompactedLive(entries: Entries, now: nat)
    ensures Live(Compacted(entries), now) == Some(Retain(entries, now))
    ensures |Compacted(entries)| == |entries|
  {
    hide Compacted, Live;
    CompactedFacts(entries);
    var records := Compacted(entries);
    LiveDistinct(records, now);
    var live := Live(records, now).value;
    forall k | k in entries && entries[k] > now ensures k in live && live[k] == entries[k] {
      assert Record(k, entries[k]) in records;
    }
    assert live == Retain(entries, now);
  }

  lemma RetainUpdate(entries: Entries, key: Key, expires: Millis, now: nat)
    requires key !in entries
    ensures Retain(entries[key := expires], now) ==
            if expires > now then Retain(entries, now)[key := expires] else Retain(entries, now)
  {
  }

  /** As time passes, a file that reads without duplicates only loses nonces. */
  lemma {:induction false} LiveLater(records: seq<Record>, now: nat, later: nat)
    requires now <= later && Live(records, now).Some?
    ensures Live(records, later) == Some(Retain(Live(records, now).value, later))
  {
    if records != [] {
      var last, before := records[|records| - 1], Live(records[..|records| - 1], now).value;
      LiveLater(records[..|records| - 1], now, later);
      if last.expires > now { RetainUpdate(before, last.key, last.expires, later); }
    }
  }

  lemma RetainFacts(entries: Entries, now: nat)
    ensures |Retain(entries, now)| <= |entries|
    ensures forall later: nat | now <= later :: Retain(Retain(entries, now), later) == Retain(entries, later)
  {
    var kept := Retain(entries, now);
    assert entries.Keys == kept.Keys + (entries.Keys - kept.Keys);
    assert |kept.Keys| == |kept| && |entries.Keys| == |entries|;
  }

  // ---------- Calls, under the lock ----------

  function Compact(c: Cache): Cache {
    c.(appends := 0, journal := Enqueue(c.journal, Replace(Compacted(c.entries))))
  }

  function Log(c: Cache, r: Record): Cache {
    var logged := Cache(c.entries[r.key := r.expires], c.appends + 1, Enqueue(c.journal, Append(r)));
    if logged.appends < COMPACTION_INTERVAL then logged else Compact(logged)
  }

  /** A refused call has already dropped the expired nonces. */
  function ConsumeOn(c: Cache, key: Key, expires: Millis, now: nat): (Cache, Result<(), Error>) {
    var pruned := c.(entries := Retain(c.entries, now));
    if key in pruned.entries then (pruned, Err(AlreadyConsumed))
    else if |pruned.entries| >= MAXIMUM_LIVE_NONCES then (pruned, Err(CacheFull))
    else (Log(pruned, Record(key, expires)), Ok(()))
  }

  /** Opening the cache on a file that loads: the file is compacted at once. */
  function Open(file: seq<Record>, now: nat): Cache
    requires Live(file, now).Some?
  {
    Compact(Cache(Retain(Live(file, now).value, now), 0, Journal(file, [], 0)))
  }

  // ---------- The cache as an object ----------

  /** Reads a file front to back. */
  method Load(records: seq<Record>, now: nat) returns (r: Option<Entries>)
    ensures r.Some? <==> Loadable(records, now)
    ensures r.Some? ==> r.value == Live(records, now).value
  {
    if |records| > MAXIMUM_RECOVERY_RECORDS || Bytes(records, Size) > MAXIMUM_JOURNAL_BYTES {
      return None;
    }
    var entries: Entries := map[];
    for n := 0 to |records|
      invariant Live(records[..n], now) == Some(entries)
      invariant forall i | 0 <= i < n :: records[i].expires != 0
    {
      var record := records[n];
      assert records[..n + 1][..n] == records[..n];
      if record.expires == 0 {
        assert record in records;
        return None;
      }
      if record.expires > now {
        if record.key in entries {
          StaysDuplicate(records, n + 1, now);
          return None;
        }
        entries := entries[record.key := record.expires];
      }
    }
    assert records[..|records|] == records;
    return if |entries| > MAXIMUM_LIVE_NONCES then None else Some(entries);
  }

  lemma {:induction false} StaysDuplicate(records: seq<Record>, n: nat, now: nat)
    requires n <= |records| && Live(records[..n], now).None?
    ensures Live(records, now).None?
    decreases |records| - n
  {
    if n == |records| {
      assert records[..n] == records;
    } else {
      assert records[..n + 1][..n] == records[..n];
      StaysDuplicate(records, n + 1, now);
    }
  }

  /** Opens the cache on a file: refused if and only if the file does not load; otherwise the cache holds the live nonces,
      and the file's compaction is on its way. */
  method OpenCache(file: seq<Record>, now: nat) returns (r: Option<ReplayCache>)
    ensures r.Some? <==> Loadable(file, now)
    ensures r.Some? ==> fresh(r.value) && r.value.Value() == Open(file, now)
  {
    var loaded := Load(file, now);
    if loaded.None? {
      return None;
    }
    var cache := new ReplayCache(file, loaded.value, now);
    return Some(cache);
  }

  class ReplayCache {
    var entries: Entries
    var appends: nat
    var journal: Journal<Record>

    ghost function Value(): Cache
      reads this
    {
      Cache(entries, appends, journal)
    }

    constructor (file: seq<Record>, loaded: Entries, now: nat)
      ensures Value() == Compact(Cache(Retain(loaded, now), 0, Journal(file, [], 0)))
    {
      entries, appends, journal := Retain(loaded, now), 0, Journal(file, [], 0);
      new;
      EnqueueCompaction();
    }

    method EnqueueCompaction()
      modifies this
      ensures Value() == Compact(old(Value()))
    {
      hide SortedScoped, RecordsAt;
      appends := 0;
      var keys := SortedScoped(entries.Keys);
      assert keys[..0] == [];
      NoRecords(entries);
      var records := [];
      for n := 0 to |keys|
        invariant unchanged(this`entries) && unchanged(this`journal) && appends == 0
        invariant records == RecordsAt(entries, keys[..n])
      {
        RecordsAtNext(entries, keys, n);
        records := records + [Record(keys[n], entries[keys[n]])];
      }
      assert keys[..|keys|] == keys;
      journal := Enqueue(journal, Replace(records));
    }

    method Consume(key: Key, expires: Millis, now: nat) returns (r: Result<(), Error>)
      modifies this
      ensures (Value(), r) == ConsumeOn(old(Value()), key, expires, now)
    {
      entries := Retain(entries, now);
      if key in entries {
        return Err(AlreadyConsumed);
      }
      if |entries| >= MAXIMUM_LIVE_NONCES {
        return Err(CacheFull);
      }
      entries := entries[key := expires];
      journal := Enqueue(journal, Append(Record(key, expires)));
      appends := appends + 1;
      if appends >= COMPACTION_INTERVAL {
        EnqueueCompaction();
      }
      return Ok(());
    }
  }
}
