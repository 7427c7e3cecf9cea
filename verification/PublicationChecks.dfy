/** What may be published, said of the staged objects as a whole: the checks that `publish` makes one by one, on running
    totals and on the manifest it builds, come to exactly this. */
module PublicationChecks {
  import opened Artifacts
  import opened ArtifactStore

  /** One object on its own. */
  predicate Acceptable(config: Config, o: Staged) {
    && NameOk(o.name) && 0 < |o.mediaType| <= 256
    && 0 < |o.bytes| <= config.limits.maximumObjectBytes && Sealable(|o.bytes|)
  }

  function SumBytes(objects: seq<Staged>): nat {
    if objects == [] then 0 else SumBytes(objects[..|objects| - 1]) + |objects[|objects| - 1].bytes|
  }

  predicate NamesDiffer(objects: seq<Staged>) {
    forall i, j | 0 <= i < j < |objects| :: objects[i].name != objects[j].name
  }

  predicate SomeInContainer(objects: seq<Staged>) {
    exists i | 0 <= i < |objects| :: objects[i].container.Some?
  }

  predicate SomeOfSandbox(objects: seq<Staged>) {
    exists i | 0 <= i < |objects| :: objects[i].container.None?
  }

  // ---------- Running totals ----------

  lemma {:induction false} TotalIsSum(config: Config, objects: seq<Staged>)
    ensures TotalBytes(config, EntriesOf(objects)) == SumBytes(objects)
  {
    if objects != [] {
      var n := |objects| - 1;
      TotalIsSum(config, objects[..n]);
      assert EntriesOf(objects)[..n] == EntriesOf(objects[..n]);
    }
  }

  lemma {:induction false} SumGrows(objects: seq<Staged>, n: nat)
    requires n <= |objects|
    ensures SumBytes(objects[..n]) <= SumBytes(objects)
    decreases |objects| - n
  {
    if n == |objects| {
      assert objects[..n] == objects;
    } else {
      SumGrows(objects, n + 1);
      assert objects[..n + 1][..n] == objects[..n];
    }
  }

  lemma RunningTotal(config: Config, objects: seq<Staged>, i: nat)
    requires i < |objects|
    ensures TotalBytes(config, EntriesOf(objects[..i + 1])) <= SumBytes(objects)
    ensures i == |objects| - 1 ==> TotalBytes(config, EntriesOf(objects[..i + 1])) == SumBytes(objects)
  {
    TotalIsSum(config, objects[..i + 1]);
    SumGrows(objects, i + 1);
    assert objects[..|objects|] == objects;
  }

  lemma ObjectsOkIff(config: Config, p: Publication)
    requires p.objects != []
    ensures ObjectsOk(config, p, |p.objects|) <==>
            && (forall o | o in p.objects :: Acceptable(config, o))
            && NamesDiffer(p.objects) && SumBytes(p.objects) <= config.limits.maximumSnapshotBytes
  {
    hide NameOk, Sealable, TotalBytes, SumBytes;
    if ObjectsOk(config, p, |p.objects|) {
      RunningTotal(config, p.objects, |p.objects| - 1);
      assert ObjectOk(config, p.objects, |p.objects| - 1);
      forall o | o in p.objects ensures Acceptable(config, o) {
        var i :| 0 <= i < |p.objects| && p.objects[i] == o;
        assert ObjectOk(config, p.objects, i);
      }
      forall i, j | 0 <= i < j < |p.objects| ensures p.objects[i].name != p.objects[j].name {
        assert ObjectOk(config, p.objects, j);
      }
    } else if && (forall o | o in p.objects :: Acceptable(config, o)) && NamesDiffer(p.objects)
              && SumBytes(p.objects) <= config.limits.maximumSnapshotBytes {
      forall i | 0 <= i < |p.objects| ensures ObjectOk(config, p.objects, i) {
        assert p.objects[i] in p.objects;
        RunningTotal(config, p.objects, i);
      }
    }
  }

  // ---------- The populated manifest ----------

  lemma {:induction false} PopulateShape(m: Manifest, objects: seq<Staged>)
    requires m.containers == map[] && m.sandbox == []
    ensures var n := Populate(m, objects);
            && (n.containers != map[] <==> SomeInContainer(objects))
            && (n.sandbox != [] <==> SomeOfSandbox(objects))
            && forall c | c in n.containers :: n.containers[c] != []
  {
    if objects != [] {
      var k := |objects| - 1;
      var before, last := objects[..k], objects[k];
      PopulateShape(m, before);
      assert objects == before + [last];
      assert SomeInContainer(objects) <==> SomeInContainer(before) || last.container.Some? by {
        if i :| 0 <= i < k && before[i].container.Some? { assert objects[i].container.Some?; }
      }
      assert SomeOfSandbox(objects) <==> SomeOfSandbox(before) || last.container.None? by {
        if i :| 0 <= i < k && before[i].container.None? { assert objects[i].container.None?; }
      }
      var n := Populate(m, objects);
      assert last.container.Some? ==> last.container.value in n.containers;
    }
  }

  lemma ListedOk(config: Config, p: Publication)
    requires Startable(config, p) && ObjectsOk(config, p, |p.objects|)
    ensures forall i | 0 <= i < |Entries(Populated(p))| :: EntryOk(config, Entries(Populated(p))[i])
    ensures DistinctNames(Entries(Populated(p)))
  {
    hide Entries, Populate, NameOk, Sealable, TotalBytes;
    StagedNamesDistinct(config, p);
    PopulateLists(p.manifest, p.objects);
    DistinctAnyOrder(EntriesOf(p.objects), Entries(Populated(p)));
    forall i | 0 <= i < |Entries(Populated(p))| ensures EntryOk(config, Entries(Populated(p))[i]) {
      var j := ListedWasStaged(p, i);
      assert ObjectOk(config, p.objects, j);
    }
  }

  /** A publication passes all checks if and only if its manifest is of its scope, unpopulated and with its origin, it has at
      least one object and no more than the limit, each acceptable on its own, with different names, together within the
      size limit, one of them of a container and one of the sandbox, and the manifest that lists them is not too long. */
  lemma PublishableIff(config: Config, p: Publication)
    ensures Publishable(config, p) <==>
            && p.manifest.scope == p.scope && p.manifest.containers == map[] && p.manifest.sandbox == []
            && p.manifest.origin.epoch != 0 && p.manifest.origin.created != 0
            && 0 < |p.objects| <= config.limits.maximumObjects
            && (forall o | o in p.objects :: Acceptable(config, o)) && NamesDiffer(p.objects)
            && SumBytes(p.objects) <= config.limits.maximumSnapshotBytes
            && SomeInContainer(p.objects) && SomeOfSandbox(p.objects)
            && 0 < config.manifestBytes(Populate(p.manifest, p.objects)) <= 8 * 1024 * 1024
  {
    hide Entries, Populate, ObjectsOk, Acceptable, NamesDiffer, SumBytes, SomeInContainer, SomeOfSandbox;
    if Startable(config, p) {
      ObjectsOkIff(config, p);
      PopulateShape(p.manifest, p.objects);
      PopulateKeepsRest(p.manifest, p.objects);
      if ObjectsOk(config, p, |p.objects|) { ListedOk(config, p); }
    }
  }
}
