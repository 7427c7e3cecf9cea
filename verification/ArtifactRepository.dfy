/** The repository's operations, one at a time, on the store they update. */
module ArtifactRepositories {
  import opened Outcomes
  import opened Artifacts
  import opened ArtifactStore

  // ---------- What a collection deletes ----------

  ghost predicate AllLoad(config: Config, store: Store, scope: Scope) {
    forall snapshot | snapshot in Snapshots(store, scope) :: LoadManifest(config, store, scope, snapshot).Ok?
  }

  ghost predicate Reachable(config: Config, store: Store, scope: Scope, key: Key)
    requires AllLoad(config, store, scope)
  {
    exists snapshot :: snapshot in Snapshots(store, scope) && key in Found(config, store, scope, snapshot)
  }

  /** Unreachable objects, staging leftovers, and the transfer records of snapshots without a reference, once the grace
      period has passed over them. Pointers never are. */
  ghost predicate Garbage(config: Config, store: Store, scope: Scope, now: real, key: Key)
    requires AllLoad(config, store, scope) && key in store
  {
    && key.scope == scope && store[key].modified <= now - config.limits.grace
    && match key
       case ObjectKey(_, _) => !Reachable(config, store, scope, key)
       case StagingKey(_, _) => true
       case TransferKey(_, snapshot, _) => snapshot !in Snapshots(store, scope)
       case PointerKey(_, _) => false
  }

  /** `after` is `before` without its garbage. */
  ghost predicate Collected(config: Config, before: Store, scope: Scope, now: real, after: Store)
    requires AllLoad(config, before, scope)
  {
    forall k :: (k in after <==> k in before && !Garbage(config, before, scope, now, k)) && (k in after ==> after[k] == before[k])
  }

  lemma FetchLocal(config: Config, a: Store, b: Store, scope: Scope, artifact: Descriptor)
    requires var k := ObjectKey(scope, artifact); k in a && k in b && a[k] == b[k]
    ensures Fetch(config, a, scope, artifact) == Fetch(config, b, scope, artifact)
  {
  }

  lemma {:induction false} DownloadLocal(config: Config, a: Store, b: Store, scope: Scope, entries: seq<Entry>)
    requires forall i | 0 <= i < |entries| ::
               var k := ObjectKey(scope, entries[i].artifact); k in a ==> k in b && a[k] == b[k]
    requires Download(config, a, scope, entries).Ok?
    ensures Download(config, b, scope, entries) == Download(config, a, scope, entries)
  {
    hide NameOk, Fetch;
    if entries != [] {
      var n := |entries| - 1;
      DownloadLocal(config, a, b, scope, entries[..n]);
      DownloadNeeds(config, a, scope, entries, n);
      FetchLocal(config, a, b, scope, entries[n].artifact);
    }
  }

  /** Collecting garbage in one scope leaves every snapshot of every scope restoring as before. */
  lemma CollectionKeepsSnapshots(
    config: Config, before: Store, scope: Scope, now: real, after: Store, other: Scope, snapshot: string)
    requires AllLoad(config, before, scope) && Collected(config, before, scope, now, after)
    requires Materialized(config, before, other, snapshot).Ok?
    ensures Materialized(config, after, other, snapshot) == Materialized(config, before, other, snapshot)
  {
    hide Entries, ManifestOk, WithinLimits, Download, Size, Fetch;
    var pointer := PointerKey(other, snapshot);
    assert pointer in before && pointer in after && after[pointer] == before[pointer];
    var found := Found(config, before, other, snapshot);
    forall k | k in found && k in before ensures k in after && after[k] == before[k] {
      if other == scope {
        assert snapshot in Snapshots(before, scope);
        assert Reachable(config, before, scope, k);
      }
    }
    var artifact := ReadPointer(before, other, snapshot).value;
    assert ObjectKey(other, artifact) in found && ObjectKey(other, artifact) in before by { FetchNeeds(config, before, other, artifact); }
    FetchLocal(config, before, after, other, artifact);
    var entries := Entries(LoadManifest(config, before, other, snapshot).value);
    assert forall i | 0 <= i < |entries| :: ObjectKey(other, entries[i].artifact) in found;
    DownloadLocal(config, before, after, other, entries);
  }

  lemma FetchNeeds(config: Config, store: Store, scope: Scope, artifact: Descriptor)
    requires Fetch(config, store, scope, artifact).Ok?
    ensures ObjectKey(scope, artifact) in store
  {
  }

  // ---------- Sweeping ----------

  function Objects(store: Store, scope: Scope): (r: set<Key>)
    ensures r <= store.Keys
  {
    set k | k in store && k.ObjectKey? && k.scope == scope
  }

  function Staging(store: Store, scope: Scope): (r: set<Key>)
    ensures r <= store.Keys
  {
    set k | k in store && k.StagingKey? && k.scope == scope
  }

  function Transfers(store: Store, scope: Scope): (r: set<Key>)
    ensures r <= store.Keys && forall k | k in r :: k.TransferKey?
  {
    set k | k in store && k.TransferKey? && k.scope == scope
  }

  function Of(transfers: set<Key>, snapshots: set<string>): set<Key>
    requires forall k | k in transfers :: k.TransferKey?
  {
    set k | k in transfers && k.snapshot in snapshots
  }

  /** A sweep takes what is listed, old enough, and not among what is to be kept. */
  predicate Takes(before: Store, listed: set<Key>, kept: set<Key>, cutoff: real, k: Key)
    requires k in before
  {
    k in listed && k !in kept && before[k].modified <= cutoff
  }

  ghost predicate SweptTo(before: Store, after: Store, listed: set<Key>, kept: set<Key>, cutoff: real) {
    forall k :: (k in after <==> k in before && !Takes(before, listed, kept, cutoff, k)) && (k in after ==> after[k] == before[k])
  }

  /** The three sweeps together take the garbage. */
  lemma SweepsCollect(
    config: Config, scope: Scope, now: real, reachable: set<Key>, s0: Store, s1: Store, s2: Store, s3: Store)
    requires AllLoad(config, s0, scope) && forall k :: k in reachable <==> Reachable(config, s0, scope, k)
    requires SweptTo(s0, s1, Objects(s0, scope), reachable, now - config.limits.grace)
    requires SweptTo(s1, s2, Staging(s1, scope), {}, now - config.limits.grace)
    requires SweptTo(s2, s3, Transfers(s2, scope), Of(Transfers(s2, scope), Snapshots(s0, scope)), now - config.limits.grace)
    ensures Collected(config, s0, scope, now, s3)
  {
    forall k
      ensures (k in s3 <==> k in s0 && !Garbage(config, s0, scope, now, k)) && (k in s3 ==> s3[k] == s0[k])
    {
      KeyCollected(config, scope, now, reachable, s0, s1, s2, s3, k);
    }
  }

  lemma KeyCollected(
    config: Config, scope: Scope, now: real, reachable: set<Key>, s0: Store, s1: Store, s2: Store, s3: Store, k: Key)
    requires AllLoad(config, s0, scope) && (k in reachable <==> Reachable(config, s0, scope, k))
    requires SweptTo(s0, s1, Objects(s0, scope), reachable, now - config.limits.grace)
    requires SweptTo(s1, s2, Staging(s1, scope), {}, now - config.limits.grace)
    requires SweptTo(s2, s3, Transfers(s2, scope), Of(Transfers(s2, scope), Snapshots(s0, scope)), now - config.limits.grace)
    ensures (k in s3 <==> k in s0 && !Garbage(config, s0, scope, now, k)) && (k in s3 ==> s3[k] == s0[k])
  {
    hide AllLoad, Reachable, Snapshots;
  }

  lemma CollectedStoreOk(config: Config, before: Store, scope: Scope, now: real, after: Store)
    requires AllLoad(config, before, scope) && Collected(config, before, scope, now, after) && StoreOk(before)
    ensures StoreOk(after)
  {
    hide AllLoad, Reachable;
  }

  class Repository {
    const config: Config
    var store: Store

    constructor (config: Config)
      ensures this.config == config && store == map[]
    {
      this.config := config;
      store := map[];
    }

    method PutIfAbsent(key: Key, blob: Blob, now: real) returns (created: bool)
      modifies this
      ensures store == ArtifactStore.PutIfAbsent(old(store), key, blob, now) && created == (key !in old(store))
    {
      created := key !in store;
      if created {
        store := store[key := Stored(blob, now)];
      }
    }

    /** Stores the staged objects one by one, up to the first that is refused, and files them in the manifest. */
    method PutObjects(p: Publication, now: real) returns (r: Result<(nat, Manifest), Error>)
      requires StoreOk(store)
      modifies this
      ensures StoreOk(store) && store.Keys <= old(store).Keys + ObjectKeys(p, |p.objects|)
      ensures forall k | k in old(store) :: k in store && store[k] == old(store)[k]
      ensures r.Ok? <==> ObjectsOk(config, p, |p.objects|)
      ensures r.Ok? ==> store.Keys == old(store).Keys + ObjectKeys(p, |p.objects|)
      ensures r.Ok? ==> r.value == (TotalBytes(config, EntriesOf(p.objects)), Populated(p))
    {
      hide StoreOk, Size, Sealable, TotalBytes, Populate, ObjectOk, NameOk, ObjectKeys, AddObject, ObjectsOk;
      var logical, names, manifest, i := 0, {}, p.manifest, 0;
      NoneYet(config, p);
      while i < |p.objects|
        invariant 0 <= i <= |p.objects| && ObjectsOk(config, p, i)
        invariant names == set j | 0 <= j < i :: p.objects[j].name
        invariant manifest == Populate(p.manifest, p.objects[..i])
        invariant logical == TotalBytes(config, EntriesOf(p.objects[..i]))
        invariant StoreOk(store) && store.Keys == old(store).Keys + ObjectKeys(p, i)
        invariant forall k | k in old(store) :: k in store && store[k] == old(store)[k]
      {
        var o := p.objects[i];
        KeysSoFar(p, i);
        OneMore(config, p, i);
        Accepted(config, p, i, names, logical);
        if !NameOk(o.name) || !(0 < |o.mediaType| <= 256) || o.name in names {
          return Err(Invalid);
        }
        names := names + {o.name};
        if !(0 < |o.bytes| <= config.limits.maximumObjectBytes) {
          return Err(Invalid);
        }
        logical := logical + |o.bytes|;
        if logical > config.limits.maximumSnapshotBytes || !Sealable(|o.bytes|) {
          return Err(Invalid);
        }
        var key := ObjectKeyOf(p, i);
        PutKeepsOk(store, key, now);
        var created := PutIfAbsent(key, Envelope(key.scope, key.artifact, key.artifact.content), now);
        manifest := AddObject(manifest, o);
        i := i + 1;
      }
      assert p.objects[..i] == p.objects;
      return Ok((logical, manifest));
    }

    /** Makes a snapshot visible if and only if it is publishable and not yet visible; it then restores as staged.
        Otherwise no pointer changes. Nothing already stored ever changes. */
    method Publish(p: Publication, now: real) returns (r: Result<nat, Error>)
      requires StoreOk(store)
      modifies this
      ensures StoreOk(store)
      ensures forall k | k in old(store) :: k in store && store[k] == old(store)[k]
      ensures r.Ok? <==> Publishable(config, p) && PointerKeyOf(p) !in old(store)
      ensures r.Ok? ==> store.Keys == old(store).Keys + KeysOf(p) + {PointerKeyOf(p)}
      ensures r.Ok? ==> r.value == TotalBytes(config, EntriesOf(p.objects))
      ensures r.Ok? ==> Materialized(config, store, p.scope, p.manifest.snapshot) == Ok(FilesOf(EntriesOf(p.objects)))
      ensures r.Err? ==> store.Keys <= old(store).Keys + KeysOf(p)
      ensures Startable(config, p) && PointerKeyOf(p) in old(store) ==> r == Err(AlreadyExists)
    {
      hide ObjectsOk, ManifestOk, Materialized, FilesOf, StoreOk, TotalBytes, Populate;
      if !Startable(config, p) {
        return Err(Invalid);
      }
      if PointerKeyOf(p) in store {
        return Err(AlreadyExists);
      }
      var put := PutObjects(p, now);
      if put.Err? {
        return Err(put.error);
      }
      var (logical, manifest) := put.value;
      if !ManifestOk(config, manifest) || !(0 < config.manifestBytes(manifest) <= MAXIMUM_MANIFEST_BYTES) {
        return Err(Invalid);
      }
      var key := ObjectKey(p.scope, Descriptor(Encoded(manifest), MANIFEST_MEDIA_TYPE));
      PutKeepsOk(store, key, now);
      var created := PutIfAbsent(key, Envelope(key.scope, key.artifact, key.artifact.content), now);
      PointerKeepsOk(store, p, now);
      created := PutIfAbsent(PointerKeyOf(p), Pointer(p.manifest.snapshot, key.artifact), now);
      if !created {
        return Err(AlreadyExists);
      }
      MaterializesPublished(config, store, p);
      return Ok(logical);
    }

    lemma NoneYet(config: Config, p: Publication)
      ensures p.objects[..0] == [] && Populate(p.manifest, []) == p.manifest && TotalBytes(config, EntriesOf([])) == 0
      ensures ObjectsOk(config, p, 0) && ObjectKeys(p, 0) == {}
    {
      assert EntriesOf([]) == [];
    }

    lemma Accepted(config: Config, p: Publication, i: nat, names: set<string>, logical: nat)
      requires i < |p.objects| && ObjectsOk(config, p, i) && names == set j | 0 <= j < i :: p.objects[j].name
      requires logical + |p.objects[i].bytes| == TotalBytes(config, EntriesOf(p.objects[..i + 1]))
      ensures var o := p.objects[i];
              ObjectsOk(config, p, i + 1) <==>
                && NameOk(o.name) && 0 < |o.mediaType| <= 256 && o.name !in names
                && 0 < |o.bytes| <= config.limits.maximumObjectBytes
                && logical + |o.bytes| <= config.limits.maximumSnapshotBytes && Sealable(|o.bytes|)
      ensures ObjectsOk(config, p, |p.objects|) ==> ObjectsOk(config, p, i + 1)
    {
      hide TotalBytes, NameOk, Sealable;
      assert ObjectsOk(config, p, i + 1) <==> ObjectOk(config, p.objects, i) by {
        hide ObjectOk;
      }
    }

    lemma KeysSoFar(p: Publication, i: nat)
      requires i < |p.objects|
      ensures ObjectKeys(p, i + 1) == ObjectKeys(p, i) + {ObjectKeyOf(p, i)}
      ensures ObjectKeys(p, i) <= ObjectKeys(p, |p.objects|)
    {
    }

    lemma OneMore(config: Config, p: Publication, i: nat)
      requires i < |p.objects|
      ensures Populate(p.manifest, p.objects[..i + 1]) == AddObject(Populate(p.manifest, p.objects[..i]), p.objects[i])
      ensures TotalBytes(config, EntriesOf(p.objects[..i + 1])) == TotalBytes(config, EntriesOf(p.objects[..i])) + |p.objects[i].bytes|
    {
      assert p.objects[..i + 1][..i] == p.objects[..i];
      assert EntriesOf(p.objects[..i + 1])[..i] == EntriesOf(p.objects[..i]);
    }

    lemma PutKeepsOk(store: Store, key: Key, now: real)
      requires StoreOk(store) && key.ObjectKey?
      ensures StoreOk(ArtifactStore.PutIfAbsent(store, key, Envelope(key.scope, key.artifact, key.artifact.content), now))
    {
    }

    lemma PointerKeepsOk(store: Store, p: Publication, now: real)
      requires StoreOk(store)
      ensures StoreOk(ArtifactStore.PutIfAbsent(store, PointerKeyOf(p), PointerOf(p), now))
    {
    }

    method CheckLimits(entries: seq<Entry>) returns (ok: bool)
      ensures ok == WithinLimits(config, entries)
    {
      hide Size;
      if |entries| > config.limits.maximumObjects {
        return false;
      }
      var total, i := 0, 0;
      while i < |entries|
        invariant 0 <= i <= |entries| && total == TotalBytes(config, entries[..i])
        invariant forall j | 0 <= j < i :: Size(config, entries[j].artifact.content) <= config.limits.maximumObjectBytes
      {
        var size := Size(config, entries[i].artifact.content);
        if size > config.limits.maximumObjectBytes {
          return false;
        }
        assert entries[..i + 1][..i] == entries[..i];
        total := total + size;
        i := i + 1;
      }
      assert entries[..i] == entries;
      return total <= config.limits.maximumSnapshotBytes;
    }

    method Materialize(scope: Scope, snapshot: string) returns (r: Result<map<string, Content>, Error>)
      ensures r == Materialized(config, store, scope, snapshot)
    {
      hide LoadManifest, WithinLimits, Entries, Download;
      var loaded := LoadManifest(config, store, scope, snapshot);
      if loaded.Err? {
        return Err(loaded.error);
      }
      var entries := Entries(loaded.value);
      var ok := CheckLimits(entries);
      if !ok {
        return Err(Invalid);
      }
      r := DownloadFiles(scope, entries);
    }

    method DownloadFiles(scope: Scope, entries: seq<Entry>) returns (r: Result<map<string, Content>, Error>)
      ensures r == Download(config, store, scope, entries)
    {
      hide Fetch, NameOk;
      var files, i := map[], 0;
      while i < |entries|
        invariant 0 <= i <= |entries| && Download(config, store, scope, entries[..i]) == Ok(files)
      {
        var e := entries[i];
        assert entries[..i + 1][..i] == entries[..i];
        ghost var next := Download(config, store, scope, entries[..i + 1]);
        if !NameOk(e.name) || e.name in files || Fetch(config, store, scope, e.artifact).Err? {
          var error :=
            if !NameOk(e.name) then Invalid else if e.name in files then Integrity
            else Fetch(config, store, scope, e.artifact).error;
          DownloadStops(config, store, scope, entries, i + 1);
          return Err(error);
        }
        files := files[e.name := Fetch(config, store, scope, e.artifact).value];
        i := i + 1;
      }
      assert entries[..i] == entries;
      return Ok(files);
    }

    lemma {:induction false} DownloadStops(config: Config, store: Store, scope: Scope, entries: seq<Entry>, i: nat)
      requires i <= |entries| && Download(config, store, scope, entries[..i]).Err?
      ensures Download(config, store, scope, entries) == Download(config, store, scope, entries[..i])
    {
      if i < |entries| {
        var n := |entries| - 1;
        assert entries[..n][..i] == entries[..i];
        DownloadStops(config, store, scope, entries[..n], i);
      } else {
        assert entries[..i] == entries;
      }
    }

    /** The snapshot can no longer be found; every other one restores as before, and no blob goes. */
    method RemoveReference(scope: Scope, snapshot: string)
      requires StoreOk(store)
      modifies this
      ensures StoreOk(store)
      ensures Materialized(config, store, scope, snapshot) == Err(NotFound)
      ensures forall other, name | (other, name) != (scope, snapshot) ::
                Materialized(config, store, other, name) == Materialized(config, old(store), other, name)
      ensures store == old(store) - {PointerKey(scope, snapshot)}
    {
      store := store - {PointerKey(scope, snapshot)};
      forall other, name | (other, name) != (scope, snapshot)
        ensures Materialized(config, store, other, name) == Materialized(config, old(store), other, name)
      {
        SameWithout(config, old(store), PointerKey(scope, snapshot), other, name);
      }
    }

    lemma SameWithout(config: Config, store: Store, key: Key, scope: Scope, snapshot: string)
      requires key.PointerKey? && key != PointerKey(scope, snapshot)
      ensures Materialized(config, store - {key}, scope, snapshot) == Materialized(config, store, scope, snapshot)
    {
      hide ManifestOk, WithinLimits, Entries, Download, Size;
      var loaded := LoadManifest(config, store, scope, snapshot);
      assert LoadManifest(config, store - {key}, scope, snapshot) == loaded;
      if loaded.Ok? { DownloadWithout(config, store, key, scope, Entries(loaded.value)); }
    }

    lemma {:induction false} DownloadWithout(config: Config, store: Store, key: Key, scope: Scope, entries: seq<Entry>)
      requires key.PointerKey?
      ensures Download(config, store - {key}, scope, entries) == Download(config, store, scope, entries)
    {
      hide NameOk, Size;
      if entries != [] { DownloadWithout(config, store, key, scope, entries[..|entries| - 1]); }
    }

    /** The keys of everything that the visible snapshots of a scope consist of. */
    method ScanReferences(scope: Scope) returns (r: Result<set<Key>, Error>)
      ensures r.Ok? <==> AllLoad(config, store, scope)
      ensures r.Ok? ==> forall k :: k in r.value <==> Reachable(config, store, scope, k)
    {
      hide LoadManifest, Found;
      var pending, reachable := Snapshots(store, scope), {};
      while pending != {}
        invariant pending <= Snapshots(store, scope)
        invariant forall s | s in Snapshots(store, scope) - pending :: LoadManifest(config, store, scope, s).Ok?
        invariant forall k :: k in reachable <==>
                    exists s :: s in Snapshots(store, scope) - pending && k in Found(config, store, scope, s)
        decreases |pending|
      {
        var snapshot :| snapshot in pending;
        if LoadManifest(config, store, scope, snapshot).Err? {
          return Err(LoadManifest(config, store, scope, snapshot).error);
        }
        reachable := reachable + Found(config, store, scope, snapshot);
        pending := pending - {snapshot};
      }
      return Ok(reachable);
    }

    method Sweep(listed: set<Key>, kept: set<Key>, cutoff: real) returns (removed: nat)
      requires listed <= store.Keys
      modifies this
      ensures removed == |old(store)| - |store| && SweptTo(old(store), store, listed, kept, cutoff)
    {
      var pending := listed;
      removed := 0;
      while pending != {}
        invariant pending <= listed && pending <= store.Keys
        invariant forall k | k in store :: k in old(store) && store[k] == old(store)[k]
        invariant forall k | k in old(store) && k !in pending :: k in store <==> !Takes(old(store), listed, kept, cutoff, k)
        invariant removed == |old(store)| - |store|
        decreases |pending|
      {
        var key :| key in pending;
        if key !in kept && store[key].modified <= cutoff {
          Fewer(store, key);
          store := store - {key};
          removed := removed + 1;
        }
        pending := pending - {key};
      }
    }

    /** Deletes exactly the garbage of the scope, or nothing if some reference does not load. */
    method GarbageCollect(scope: Scope, now: real) returns (r: Result<nat, Error>)
      requires StoreOk(store)
      modifies this
      ensures StoreOk(store)
      ensures r.Ok? <==> AllLoad(config, old(store), scope)
      ensures r.Ok? ==> Collected(config, old(store), scope, now, store) && r.value == |old(store)| - |store|
      ensures r.Err? ==> store == old(store)
    {
      hide AllLoad, Reachable, StoreOk, SweptTo, Collected, Objects, Staging, Transfers, Of;
      var snapshots := Snapshots(store, scope);
      var scanned := ScanReferences(scope);
      if scanned.Err? {
        return Err(scanned.error);
      }
      var cutoff := now - config.limits.grace;
      ghost var s0 := store;
      var removed := Sweep(Objects(store, scope), scanned.value, cutoff);
      ghost var s1 := store;
      var more := Sweep(Staging(store, scope), {}, cutoff);
      removed := removed + more;
      ghost var s2 := store;
      more := Sweep(Transfers(store, scope), Of(Transfers(store, scope), snapshots), cutoff);
      removed := removed + more;
      SweepsCollect(config, scope, now, scanned.value, s0, s1, s2, store);
      CollectedStoreOk(config, s0, scope, now, store);
      return Ok(removed);
    }

    lemma Fewer(store: Store, key: Key)
      requires key in store
      ensures |store - {key}| == |store| - 1
    {
      assert (store - {key}).Keys == store.Keys - {key};
      assert |store.Keys| == |store|;
    }
  }
}
