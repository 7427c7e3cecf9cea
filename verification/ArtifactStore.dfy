/** The blob store that snapshots are published to, and how a snapshot is read back. */
module ArtifactStore {
  import opened Outcomes
  import opened Numbers
  import opened Artifacts
  import Envelopes

  datatype Key =
    | ObjectKey(scope: Scope, artifact: Descriptor)
    | PointerKey(scope: Scope, snapshot: string)
    | StagingKey(scope: Scope, name: string)
    | TransferKey(scope: Scope, snapshot: string, part: string)

  datatype Blob =
    | Envelope(scope: Scope, descriptor: Descriptor, content: Content)
    | Pointer(snapshot: string, manifest: Descriptor)
    | Opaque

  datatype Stored = Stored(blob: Blob, modified: real)

  type Store = map<Key, Stored>

  datatype Error = Invalid | AlreadyExists | NotFound | Integrity

  /** Every object is the envelope of its key; every pointer is under its own key. */
  ghost predicate StoreOk(store: Store) {
    && (forall k: Key | k in store && k.ObjectKey? :: store[k].blob == Envelope(k.scope, k.artifact, k.artifact.content))
    && (forall k: Key | k in store && k.PointerKey? :: store[k].blob.Pointer? && store[k].blob.snapshot == k.snapshot)
  }

  /** `put_if_absent`: an existing blob stays as it is, with its time of modification. */
  function PutIfAbsent(store: Store, key: Key, blob: Blob, modified: real): Store {
    if key in store then store else store[key := Stored(blob, modified)]
  }

  // ---------- What may be published ----------

  function TotalBytes(config: Config, entries: seq<Entry>): nat {
    if entries == [] then 0
    else
      TotalBytes(config, entries[..|entries| - 1]) + Size(config, entries[|entries| - 1].artifact.content)
  }

  predicate Sealable(size: nat) {
    Envelopes.ChunkCount(size) <= U32_MAX + 1
  }

  /** The checks before any object is stored. */
  predicate Startable(config: Config, p: Publication) {
    && p.manifest.scope == p.scope
    && p.manifest.containers == map[] && p.manifest.sandbox == []
    && p.manifest.origin.epoch != 0 && p.manifest.origin.created != 0
    && 0 < |p.objects| <= config.limits.maximumObjects
  }

  /** The checks on object `i` after its predecessors have been stored. */
  predicate ObjectOk(config: Config, objects: seq<Staged>, i: nat)
    requires i < |objects|
  {
    var o := objects[i];
    && NameOk(o.name)
    && 0 < |o.mediaType| <= 256
    && (forall j | 0 <= j < i :: objects[j].name != o.name)
    && 0 < |o.bytes| <= config.limits.maximumObjectBytes
    && TotalBytes(config, EntriesOf(objects[..i + 1])) <= config.limits.maximumSnapshotBytes
    && Sealable(|o.bytes|)
  }

  predicate EntryOk(config: Config, e: Entry) {
    NameOk(e.name) && Size(config, e.artifact.content) > 0 && e.artifact.mediaType != ""
  }

  /** A manifest's own validation. */
  predicate ManifestOk(config: Config, m: Manifest) {
    && m.origin.epoch != 0 && m.origin.created != 0
    && (forall i | 0 <= i < |Entries(m)| :: EntryOk(config, Entries(m)[i]))
    && DistinctNames(Entries(m))
    && m.containers != map[] && (forall c | c in m.containers :: m.containers[c] != [])
    && m.sandbox != []
  }

  function Populated(p: Publication): Manifest {
    Populate(p.manifest, p.objects)
  }

  /** The checks on the populated manifest after all objects have been stored. */
  predicate ManifestReady(config: Config, p: Publication) {
    && ManifestOk(config, Populated(p))
    && 0 < config.manifestBytes(Populated(p)) <= MAXIMUM_MANIFEST_BYTES
  }

  predicate ObjectsOk(config: Config, p: Publication, count: nat) {
    count <= |p.objects| && forall i | 0 <= i < count :: ObjectOk(config, p.objects, i)
  }

  predicate Publishable(config: Config, p: Publication) {
    Startable(config, p) && ObjectsOk(config, p, |p.objects|) && ManifestReady(config, p)
  }

  // ---------- The keys of a publication ----------

  function ObjectKeyOf(p: Publication, i: nat): Key
    requires i < |p.objects|
  {
    ObjectKey(p.scope, EntryOf(p.objects[i]).artifact)
  }

  function ManifestDescriptor(p: Publication): Descriptor {
    Descriptor(Encoded(Populated(p)), MANIFEST_MEDIA_TYPE)
  }

  function ManifestKeyOf(p: Publication): Key {
    ObjectKey(p.scope, ManifestDescriptor(p))
  }

  function PointerKeyOf(p: Publication): Key {
    PointerKey(p.scope, p.manifest.snapshot)
  }

  function PointerOf(p: Publication): Blob {
    Pointer(p.manifest.snapshot, ManifestDescriptor(p))
  }

  function ObjectKeys(p: Publication, count: nat): set<Key>
    requires count <= |p.objects|
  {
    set i | 0 <= i < count :: ObjectKeyOf(p, i)
  }

  function KeysOf(p: Publication): set<Key> {
    ObjectKeys(p, |p.objects|) + {ManifestKeyOf(p)}
  }

  // ---------- Reading back ----------

  function Length(config: Config, blob: Blob): nat {
    match blob
    case Envelope(_, _, content) => Envelopes.EnvelopeBytes(Size(config, content))
    case _ => 0
  }

  /** Fetches an envelope within the length its descriptor allows, and opens it. */
  function Fetch(config: Config, store: Store, scope: Scope, artifact: Descriptor): Result<Content, Error> {
    var size := Size(config, artifact.content);
    var key := ObjectKey(scope, artifact);
    if size > U64_MAX || Envelopes.MaximumEnvelopeBytes(size).Err? then Err(Invalid)
    else if key !in store then Err(NotFound)
    else
      var maximum := Envelopes.MaximumEnvelopeBytes(size);
      var blob := store[key].blob;
      if Length(config, blob) > maximum.value then Err(Invalid)
      else if blob.Envelope? && blob.scope == scope && blob.descriptor == artifact && blob.content == artifact.content then
        Ok(blob.content)
      else Err(Integrity)
  }

  function ReadPointer(store: Store, scope: Scope, snapshot: string): Result<Descriptor, Error> {
    var key := PointerKey(scope, snapshot);
    if key !in store then Err(NotFound)
    else
      var blob := store[key].blob;
      if blob.Pointer? && blob.snapshot == snapshot then Ok(blob.manifest) else Err(Integrity)
  }

  function LoadManifest(config: Config, store: Store, scope: Scope, snapshot: string): Result<Manifest, Error> {
    match ReadPointer(store, scope, snapshot)
    case Err(e) => Err(e)
    case Ok(artifact) =>
      if artifact.mediaType != MANIFEST_MEDIA_TYPE || Size(config, artifact.content) > MAXIMUM_MANIFEST_BYTES then
        Err(Integrity)
      else
        match Fetch(config, store, scope, artifact)
        case Err(e) => Err(e)
        case Ok(Raw(_)) => Err(Integrity)
        case Ok(Encoded(m)) =>
          if m.snapshot == snapshot && m.scope == scope && ManifestOk(config, m) then Ok(m) else Err(Integrity)
  }

  /** The keys that scanning one snapshot finds. */
  function Found(config: Config, store: Store, scope: Scope, snapshot: string): set<Key>
    requires LoadManifest(config, store, scope, snapshot).Ok?
  {
    {ObjectKey(scope, ReadPointer(store, scope, snapshot).value)}
    + set e | e in Entries(LoadManifest(config, store, scope, snapshot).value) :: ObjectKey(scope, e.artifact)
  }

  function Snapshots(store: Store, scope: Scope): set<string> {
    set k | k in store && k.PointerKey? && k.scope == scope :: k.snapshot
  }

  function Download(config: Config, store: Store, scope: Scope, entries: seq<Entry>): Result<map<string, Content>, Error> {
    if entries == [] then Ok(map[])
    else
      var e := entries[|entries| - 1];
      match Download(config, store, scope, entries[..|entries| - 1])
      case Err(error) => Err(error)
      case Ok(files) =>
        if !NameOk(e.name) then Err(Invalid)
        else if e.name in files then Err(Integrity)
        else
          match Fetch(config, store, scope, e.artifact)
          case Err(error) => Err(error)
          case Ok(content) => Ok(files[e.name := content])
  }

  predicate WithinLimits(config: Config, entries: seq<Entry>) {
    && |entries| <= config.limits.maximumObjects
    && (forall i | 0 <= i < |entries| :: Size(config, entries[i].artifact.content) <= config.limits.maximumObjectBytes)
    && TotalBytes(config, entries) <= config.limits.maximumSnapshotBytes
  }

  function Materialized(config: Config, store: Store, scope: Scope, snapshot: string): Result<map<string, Content>, Error> {
    match LoadManifest(config, store, scope, snapshot)
    case Err(e) => Err(e)
    case Ok(m) =>
      if !WithinLimits(config, Entries(m)) then Err(Invalid)
      else Download(config, store, scope, Entries(m))
  }

  // ---------- What is published can be read back ----------

  lemma FetchSealed(config: Config, store: Store, scope: Scope, artifact: Descriptor)
    requires StoreOk(store) && ObjectKey(scope, artifact) in store
    requires Sealable(Size(config, artifact.content))
    ensures Fetch(config, store, scope, artifact) == Ok(artifact.content)
  {
    Envelopes.Numbered(Size(config, artifact.content));
    Envelopes.MaximumIsExact(Size(config, artifact.content));
  }

  lemma {:induction false} DownloadAll(config: Config, store: Store, scope: Scope, entries: seq<Entry>)
    requires StoreOk(store) && DistinctNames(entries)
    requires forall i | 0 <= i < |entries| :: NameOk(entries[i].name) && Sealable(Size(config, entries[i].artifact.content))
    requires forall i | 0 <= i < |entries| :: ObjectKey(scope, entries[i].artifact) in store
    ensures Download(config, store, scope, entries) == Ok(FilesOf(entries))
  {
    hide Fetch, StoreOk, Sealable, NameOk;
    if entries != [] {
      var front, e := entries[..|entries| - 1], entries[|entries| - 1];
      DownloadAll(config, store, scope, front);
      FetchSealed(config, store, scope, e.artifact);
      FilesHave(front);
      assert e.name !in FilesOf(front);
    }
  }

  lemma {:induction false} TotalWithout(config: Config, entries: seq<Entry>, i: nat)
    requires i < |entries|
    ensures TotalBytes(config, entries)
         == TotalBytes(config, entries[..i] + entries[i + 1..]) + Size(config, entries[i].artifact.content)
    decreases |entries|
  {
    var n := |entries| - 1;
    if i == n {
      assert entries[..i] + entries[i + 1..] == entries[..n];
    } else {
      TotalWithout(config, entries[..n], i);
      var rest := entries[..i] + entries[i + 1..];
      assert rest[..|rest| - 1] == entries[..n][..i] + entries[..n][i + 1..];
      assert rest[|rest| - 1] == entries[n];
    }
  }

  lemma BagWithout(entries: seq<Entry>, i: nat)
    requires i < |entries|
    ensures multiset(entries[..i] + entries[i + 1..]) == multiset(entries) - multiset{entries[i]}
  {
    assert entries == entries[..i] + [entries[i]] + entries[i + 1..];
  }

  lemma {:induction false} TotalAnyOrder(config: Config, a: seq<Entry>, b: seq<Entry>)
    requires multiset(a) == multiset(b)
    ensures TotalBytes(config, a) == TotalBytes(config, b)
    decreases |a|
  {
    hide TotalBytes, Size;
    assert |a| == |multiset(a)| == |multiset(b)| == |b|;
    if a == [] {
      assert b == [];
    } else {
      var n := |a| - 1;
      assert a[n] in multiset(b);
      var j :| 0 <= j < |b| && b[j] == a[n];
      BagWithout(a, n);
      BagWithout(b, j);
      TotalAnyOrder(config, a[..n] + a[n + 1..], b[..j] + b[j + 1..]);
      TotalWithout(config, a, n);
      TotalWithout(config, b, j);
    }
  }

  lemma StagedNamesDistinct(config: Config, p: Publication)
    requires ObjectsOk(config, p, |p.objects|)
    ensures DistinctNames(EntriesOf(p.objects))
  {
    forall i, j | 0 <= i < j < |p.objects| ensures p.objects[i].name != p.objects[j].name {
      assert ObjectOk(config, p.objects, j);
    }
  }

  /** Whatever is listed was staged. */
  lemma ListedWasStaged(p: Publication, i: nat) returns (j: nat)
    requires p.manifest.containers == map[] && p.manifest.sandbox == []
    requires i < |Entries(Populated(p))|
    ensures j < |p.objects| && Entries(Populated(p))[i] == EntryOf(p.objects[j])
  {
    hide Entries, Populate;
    PopulateLists(p.manifest, p.objects);
    var entries, staged := Entries(Populated(p)), EntriesOf(p.objects);
    assert entries[i] in multiset(entries);
    assert entries[i] in multiset(staged);
    j :| 0 <= j < |staged| && staged[j] == entries[i];
  }

  /** Whatever was staged is listed. */
  lemma StagedIsListed(p: Publication, j: nat)
    requires p.manifest.containers == map[] && p.manifest.sandbox == []
    requires j < |p.objects|
    ensures EntryOf(p.objects[j]) in Entries(Populated(p))
  {
    hide Entries, Populate;
    PopulateLists(p.manifest, p.objects);
    var entries, staged := Entries(Populated(p)), EntriesOf(p.objects);
    assert staged[j] in multiset(staged);
    assert staged[j] in multiset(entries);
  }

  lemma PublishedWithinLimits(config: Config, p: Publication)
    requires Publishable(config, p)
    ensures WithinLimits(config, Entries(Populated(p)))
    ensures DistinctNames(Entries(Populated(p)))
    ensures FilesOf(Entries(Populated(p))) == FilesOf(EntriesOf(p.objects))
  {
    hide Entries, Populate, ManifestReady, FilesOf;
    var entries, staged := Entries(Populated(p)), EntriesOf(p.objects);
    PopulateLists(p.manifest, p.objects);
    assert |entries| == |multiset(entries)| == |staged|;
    StagedNamesDistinct(config, p);
    FilesAnyOrder(staged, entries);
    DistinctAnyOrder(staged, entries);
    TotalAnyOrder(config, entries, staged);
    assert ObjectOk(config, p.objects, |p.objects| - 1);
    assert p.objects[..|p.objects|] == p.objects;
    forall i | 0 <= i < |entries|
      ensures Size(config, entries[i].artifact.content) <= config.limits.maximumObjectBytes
    {
      var j := ListedWasStaged(p, i);
      assert ObjectOk(config, p.objects, j);
    }
  }

  lemma PublishedEntries(config: Config, p: Publication, i: nat)
    requires Publishable(config, p) && i < |Entries(Populated(p))|
    ensures var e := Entries(Populated(p))[i];
            && NameOk(e.name) && Sealable(Size(config, e.artifact.content))
            && ObjectKey(p.scope, e.artifact) in KeysOf(p)
  {
    hide Entries, Populate, ManifestReady;
    var j := ListedWasStaged(p, i);
    assert ObjectOk(config, p.objects, j);
    assert ObjectKeyOf(p, j) in ObjectKeys(p, |p.objects|);
  }

  lemma ManifestLoads(config: Config, store: Store, p: Publication)
    requires StoreOk(store) && Publishable(config, p)
    requires PointerKeyOf(p) in store && store[PointerKeyOf(p)].blob == PointerOf(p)
    requires ManifestKeyOf(p) in store
    ensures LoadManifest(config, store, p.scope, p.manifest.snapshot) == Ok(Populated(p))
  {
    hide Entries, Populate, ManifestOk, StoreOk;
    FewChunks(config.manifestBytes(Populated(p)));
    FetchSealed(config, store, p.scope, ManifestDescriptor(p));
    PopulateKeepsRest(p.manifest, p.objects);
  }

  lemma FewChunks(size: nat)
    requires size <= MAXIMUM_MANIFEST_BYTES
    ensures Sealable(size)
  {
  }

  /** The round trip: a snapshot whose pointer and blobs are stored is restored as exactly the staged files. */
  lemma MaterializesPublished(config: Config, store: Store, p: Publication)
    requires StoreOk(store) && Publishable(config, p)
    requires PointerKeyOf(p) in store && store[PointerKeyOf(p)].blob == PointerOf(p)
    requires KeysOf(p) <= store.Keys
    ensures Materialized(config, store, p.scope, p.manifest.snapshot) == Ok(FilesOf(EntriesOf(p.objects)))
  {
    hide Entries, Populate, ManifestReady, StoreOk, LoadManifest, Download, WithinLimits, FilesOf;
    ManifestLoads(config, store, p);
    PublishedWithinLimits(config, p);
    var entries := Entries(Populated(p));
    forall i | 0 <= i < |entries|
      ensures NameOk(entries[i].name) && Sealable(Size(config, entries[i].artifact.content))
      ensures ObjectKey(p.scope, entries[i].artifact) in store
    {
      PublishedEntries(config, p, i);
    }
    DownloadAll(config, store, p.scope, entries);
  }

  lemma {:induction false} DownloadNeeds(config: Config, store: Store, scope: Scope, entries: seq<Entry>, i: nat)
    requires Download(config, store, scope, entries).Ok? && i < |entries|
    ensures ObjectKey(scope, entries[i].artifact) in store
  {
    hide NameOk, Size;
    var n := |entries| - 1;
    if i < n { DownloadNeeds(config, store, scope, entries[..n], i); }
  }

  /** A visible snapshot restores if and only if all of its blobs are stored. */
  lemma RestoresIffStored(config: Config, store: Store, p: Publication)
    requires StoreOk(store) && Publishable(config, p)
    requires PointerKeyOf(p) in store && store[PointerKeyOf(p)].blob == PointerOf(p)
    ensures Materialized(config, store, p.scope, p.manifest.snapshot).Ok? <==> KeysOf(p) <= store.Keys
  {
    hide Entries, Populate, ManifestReady, ManifestOk, StoreOk, Download, WithinLimits, FilesOf, Size, ObjectOk;
    if KeysOf(p) <= store.Keys {
      MaterializesPublished(config, store, p);
    } else if Materialized(config, store, p.scope, p.manifest.snapshot).Ok? {
      var entries := Entries(Populated(p));
      forall k | k in KeysOf(p) ensures k in store {
        if k != ManifestKeyOf(p) {
          var j :| 0 <= j < |p.objects| && k == ObjectKeyOf(p, j);
          StagedIsListed(p, j);
          var i :| 0 <= i < |entries| && entries[i] == EntryOf(p.objects[j]);
          DownloadNeeds(config, store, p.scope, entries, i);
        }
      }
    }
  }

  lemma TwoObjectsOk(config: Config, p: Publication, a: Staged, b: Staged)
    requires p.objects == [a, b] && a.name != b.name && NameOk(a.name) && NameOk(b.name)
    requires 0 < |a.mediaType| <= 256 && 0 < |b.mediaType| <= 256
    requires 0 < |a.bytes| <= config.limits.maximumObjectBytes && 0 < |b.bytes| <= config.limits.maximumObjectBytes
    requires |a.bytes| + |b.bytes| <= config.limits.maximumSnapshotBytes && Sealable(|a.bytes|) && Sealable(|b.bytes|)
    ensures ObjectsOk(config, p, 2)
  {
    hide NameOk, Sealable;
    assert p.objects[..1] == [a] && p.objects[..2] == [a, b];
    assert EntriesOf([a]) == [EntryOf(a)] && EntriesOf([a, b]) == [EntryOf(a), EntryOf(b)];
    assert [EntryOf(a), EntryOf(b)][..1] == [EntryOf(a)] && [EntryOf(a)][..0] == [];
    assert TotalBytes(config, [EntryOf(a)]) == |a.bytes|;
    assert TotalBytes(config, [EntryOf(a), EntryOf(b)]) == |a.bytes| + |b.bytes|;
  }

  lemma TwoPopulate(m: Manifest, a: Staged, b: Staged)
    ensures Populate(m, [a, b]) == AddObject(AddObject(m, a), b)
  {
    hide AddObject;
    assert [a, b][..1] == [a] && [a][..0] == [];
    assert Populate(m, [a]) == AddObject(Populate(m, []), a);
  }

  /** One container object and one sandbox object within the limits make a publishable snapshot. */
  lemma SmallSnapshotIsPublishable(config: Config, m: Manifest, a: Staged, b: Staged)
    requires m.containers == map[] && m.sandbox == [] && m.origin.epoch != 0 && m.origin.created != 0
    requires a.container.Some? && b.container.None? && a.name != b.name && NameOk(a.name) && NameOk(b.name)
    requires 0 < |a.mediaType| <= 256 && 0 < |b.mediaType| <= 256
    requires 0 < |a.bytes| <= config.limits.maximumObjectBytes && 0 < |b.bytes| <= config.limits.maximumObjectBytes
    requires |a.bytes| + |b.bytes| <= config.limits.maximumSnapshotBytes && config.limits.maximumObjects >= 2
    requires Sealable(|a.bytes|) && Sealable(|b.bytes|)
    requires 0 < config.manifestBytes(AddObject(AddObject(m, a), b)) <= MAXIMUM_MANIFEST_BYTES
    ensures Publishable(config, Publication(m.scope, m, [a, b]))
  {
    hide Entries, NameOk, Sealable, ObjectsOk, Populate, TotalBytes;
    var p := Publication(m.scope, m, [a, b]);
    TwoObjectsOk(config, p, a, b);
    TwoPopulate(m, a, b);
    StagedNamesDistinct(config, p);
    PopulateLists(m, p.objects);
    DistinctAnyOrder(EntriesOf(p.objects), Entries(Populated(p)));
    forall i | 0 <= i < |Entries(Populated(p))| ensures EntryOk(config, Entries(Populated(p))[i]) {
      var j := ListedWasStaged(p, i);
    }
    assert a.container.value in Populated(p).containers;
  }
}
