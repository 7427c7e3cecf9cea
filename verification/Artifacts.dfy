/** Snapshots in the artifact store, symbolically: a digest stands for the content it was taken of, an encoded
    manifest for the manifest, and a sealed envelope for its content, scope and descriptor. Distinct contents thus have
    distinct digests, and an envelope opens exactly under the scope and descriptor it was sealed with. */
module Artifacts {
  import opened Orders
  import opened Outcomes
  import opened Numbers

  const MANIFEST_MEDIA_TYPE: string := "application/vnd.runtrue.snapshot.manifest.v4+json"
  const MAXIMUM_MANIFEST_BYTES: nat := 8 * 1024 * 1024

  datatype Scope = Scope(tenant: string, workspace: string)

  datatype Mode = Live | StopAndMove

  /** Where a snapshot was taken. */
  datatype Origin = Origin(sandbox: string, worker: string, epoch: nat, created: nat, mode: Mode)

  datatype Content = Raw(bytes: seq<Byte>) | Encoded(manifest: Manifest)

  datatype Descriptor = Descriptor(content: Content, mediaType: string)

  datatype Entry = Entry(name: string, artifact: Descriptor)

  datatype Manifest = Manifest(
    scope: Scope, snapshot: string, origin: Origin, containers: map<string, seq<Entry>>, sandbox: seq<Entry>)

  datatype Staged = Staged(name: string, container: Option<string>, mediaType: string, bytes: seq<Byte>)

  /** What is to be published: a manifest without objects, and the staged objects. */
  datatype Publication = Publication(scope: Scope, manifest: Manifest, objects: seq<Staged>)

  datatype Limits = Limits(
    maximumObjectBytes: nat, maximumSnapshotBytes: nat, maximumObjects: nat, timeout: real, grace: real)
  {
    predicate Valid() {
      && 0 < maximumObjectBytes <= maximumSnapshotBytes
      && 0 < maximumObjects <= 100_000
      && 0.0 < timeout <= 3600.0
      && timeout <= grace
    }
  }

  function DefaultLimits(): Limits {
    Limits(16 * 1024 * 1024 * 1024, 64 * 1024 * 1024 * 1024, 1_024, 300.0, 3600.0)
  }

  /** The limits, and how long a manifest is once encoded. */
  datatype Config = Config(limits: Limits, manifestBytes: Manifest -> nat)

  function Size(config: Config, content: Content): nat {
    match content
    case Raw(bytes) => |bytes|
    case Encoded(manifest) => config.manifestBytes(manifest)
  }

  predicate NameOk(name: string) {
    && 0 < |name| <= 128
    && forall c | c in name :: 'a' <= c <= 'z' || 'A' <= c <= 'Z' || '0' <= c <= '9' || c == '.' || c == '_' || c == '-'
  }

  // ---------- The objects of a manifest ----------

  function EntryOf(o: Staged): Entry {
    Entry(o.name, Descriptor(Raw(o.bytes), o.mediaType))
  }

  function EntriesOf(objects: seq<Staged>): seq<Entry> {
    seq(|objects|, i requires 0 <= i < |objects| => EntryOf(objects[i]))
  }

  /** Files one object under its container, or with the sandbox. */
  function AddObject(m: Manifest, o: Staged): Manifest {
    if o.container.None? then m.(sandbox := m.sandbox + [EntryOf(o)])
    else
      var c := o.container.value;
      m.(containers := m.containers[c := (if c in m.containers then m.containers[c] else []) + [EntryOf(o)]])
  }

  function Populate(m: Manifest, objects: seq<Staged>): Manifest {
    if objects == [] then m
    else AddObject(Populate(m, objects[..|objects| - 1]), objects[|objects| - 1])
  }

  function Flatten(containers: map<string, seq<Entry>>, ids: seq<string>): seq<Entry>
    requires forall c | c in ids :: c in containers
  {
    if ids == [] then [] else containers[ids[0]] + Flatten(containers, ids[1..])
  }

  /** All objects: those of the containers, in order, then those of the sandbox. */
  function Entries(m: Manifest): seq<Entry> {
    Flatten(m.containers, SortedNames(m.containers.Keys)) + m.sandbox
  }

  ghost function AnyContainer(containers: map<string, seq<Entry>>): (c: string)
    requires containers != map[]
    ensures c in containers
  {
    var c :| c in containers; c
  }

  lemma Smaller(containers: map<string, seq<Entry>>, c: string)
    requires c in containers
    ensures |containers - {c}| == |containers| - 1
  {
    assert (containers - {c}).Keys == containers.Keys - {c};
    assert |containers.Keys| == |containers|;
  }

  ghost function Bag(containers: map<string, seq<Entry>>): multiset<Entry>
    decreases |containers|
  {
    if containers == map[] then multiset{}
    else
      var c := AnyContainer(containers);
      Smaller(containers, c);
      multiset(containers[c]) + Bag(containers - {c})
  }

  lemma {:induction false} BagSplit(containers: map<string, seq<Entry>>, c: string)
    requires c in containers
    ensures Bag(containers) == multiset(containers[c]) + Bag(containers - {c})
    decreases |containers|
  {
    var d := AnyContainer(containers);
    if d != c {
      Smaller(containers, d);
      BagSplit(containers - {d}, c);
      Smaller(containers, c);
      BagSplit(containers - {c}, d);
      assert containers - {d} - {c} == containers - {c} - {d};
    }
  }

  lemma {:induction false} FlattenBag(containers: map<string, seq<Entry>>, ids: seq<string>)
    requires NoDuplicates(ids) && forall c :: c in ids <==> c in containers
    ensures multiset(Flatten(containers, ids)) == Bag(containers)
    decreases |ids|
  {
    if ids == [] {
      assert containers == map[];
    } else {
      var c := ids[0];
      assert ids == [c] + ids[1..] && c !in ids[1..];
      var rest := containers - {c};
      FlattenBag(rest, ids[1..]);
      FlattenLocal(containers, rest, ids[1..]);
      BagSplit(containers, c);
    }
  }

  lemma {:induction false} FlattenLocal(a: map<string, seq<Entry>>, b: map<string, seq<Entry>>, ids: seq<string>)
    requires forall c | c in ids :: c in a && c in b && a[c] == b[c]
    ensures Flatten(a, ids) == Flatten(b, ids)
  {
    if ids != [] {
      assert ids == [ids[0]] + ids[1..];
      FlattenLocal(a, b, ids[1..]);
    }
  }

  lemma EntriesBag(m: Manifest)
    ensures multiset(Entries(m)) == Bag(m.containers) + multiset(m.sandbox)
  {
    hide SortedNames, Bag;
    var ids := SortedNames(m.containers.Keys);
    FlattenBag(m.containers, ids);
    assert multiset(Entries(m)) == multiset(Flatten(m.containers, ids)) + multiset(m.sandbox);
  }

  lemma AddObjectBag(m: Manifest, o: Staged)
    ensures multiset(Entries(AddObject(m, o))) == multiset(Entries(m)) + multiset{EntryOf(o)}
  {
    hide Entries, Bag;
    var n := AddObject(m, o);
    EntriesBag(m);
    EntriesBag(n);
    if o.container.Some? {
      var c := o.container.value;
      BagSplit(n.containers, c);
      if c in m.containers {
        BagSplit(m.containers, c);
        assert n.containers - {c} == m.containers - {c};
      } else {
        assert n.containers - {c} == m.containers;
        assert [] + [EntryOf(o)] == [EntryOf(o)];
      }
    }
  }

  /** A populated manifest lists exactly the staged objects. */
  lemma {:induction false} PopulateLists(m: Manifest, objects: seq<Staged>)
    requires m.containers == map[] && m.sandbox == []
    ensures multiset(Entries(Populate(m, objects))) == multiset(EntriesOf(objects))
  {
    hide Entries, AddObject, Bag;
    if objects == [] {
      EntriesBag(m);
      BagOfNothing();
      assert EntriesOf(objects) == [];
    } else {
      var n := |objects| - 1;
      PopulateLists(m, objects[..n]);
      AddObjectBag(Populate(m, objects[..n]), objects[n]);
      assert EntriesOf(objects) == EntriesOf(objects[..n]) + [EntryOf(objects[n])];
    }
  }

  lemma BagOfNothing()
    ensures Bag(map[]) == multiset{}
  {
  }

  lemma {:induction false} PopulateKeepsRest(m: Manifest, objects: seq<Staged>)
    ensures var p := Populate(m, objects); p == m.(containers := p.containers, sandbox := p.sandbox)
  {
    if objects != [] { PopulateKeepsRest(m, objects[..|objects| - 1]); }
  }

  // ---------- Names ----------

  predicate DistinctNames(entries: seq<Entry>) {
    forall i, j | 0 <= i < j < |entries| :: entries[i].name != entries[j].name
  }

  lemma Twice(entries: seq<Entry>, i: nat, j: nat)
    requires i < j < |entries| && entries[i] == entries[j]
    ensures multiset(entries)[entries[i]] >= 2
  {
    assert entries == entries[..i] + [entries[i]] + entries[i + 1..j] + [entries[j]] + entries[j + 1..];
  }

  lemma {:induction false} OnceOnly(entries: seq<Entry>, i: nat)
    requires DistinctNames(entries) && i < |entries|
    ensures multiset(entries)[entries[i]] == 1
  {
    assert entries == entries[..i] + [entries[i]] + entries[i + 1..];
    assert entries[i] !in entries[..i] && entries[i] !in entries[i + 1..];
  }

  /** Distinct names are a matter of what is listed, not of the order. */
  lemma DistinctAnyOrder(a: seq<Entry>, b: seq<Entry>)
    requires multiset(a) == multiset(b) && DistinctNames(a)
    ensures DistinctNames(b)
  {
    forall i, j | 0 <= i < j < |b| ensures b[i].name != b[j].name {
      assert b[i] in multiset(b) && b[j] in multiset(b);
      assert b[i] in a && b[j] in a;
      var k :| 0 <= k < |a| && a[k] == b[i];
      var l :| 0 <= l < |a| && a[l] == b[j];
      OnceOnly(a, k);
      if b[i] == b[j] { Twice(b, i, j); }
    }
  }

  /** Each name with its content. */
  function FilesOf(entries: seq<Entry>): map<string, Content> {
    if entries == [] then map[]
    else
      var last := entries[|entries| - 1];
      FilesOf(entries[..|entries| - 1])[last.name := last.artifact.content]
  }

  lemma {:induction false} FilesHave(entries: seq<Entry>)
    requires DistinctNames(entries)
    ensures FilesOf(entries).Keys == set e | e in entries :: e.name
    ensures forall e | e in entries :: FilesOf(entries)[e.name] == e.artifact.content
  {
    if entries != [] {
      var front, last := entries[..|entries| - 1], entries[|entries| - 1];
      assert entries == front + [last];
      FilesHave(front);
      assert FilesOf(entries) == FilesOf(front)[last.name := last.artifact.content];
    }
  }

  /** The files do not depend on the order in which they are listed. */
  lemma FilesAnyOrder(a: seq<Entry>, b: seq<Entry>)
    requires multiset(a) == multiset(b) && DistinctNames(a)
    ensures FilesOf(a) == FilesOf(b)
  {
    DistinctAnyOrder(a, b);
    FilesHave(a);
    FilesHave(b);
    assert forall e :: e in a <==> e in b by {
      assert forall e :: e in a <==> e in multiset(a);
      assert forall e :: e in b <==> e in multiset(b);
    }
  }
}
