/** Nothing that others do keeps a publish from succeeding, or garbage from being collected: from every state that a run can
    reach there is a continuation in which it is done. */
module ArtifactProgress {
  import opened Numbers
  import opened Outcomes
  import opened Artifacts
  import opened ArtifactStore
  import opened ArtifactRuns
  import opened ArtifactRaces

  lemma ContinuesOn(
    config: Config, a: seq<World>, s: seq<Step>, b: seq<World>, t: seq<Step>, c: seq<World>, u: seq<Step>)
    requires Continues(config, a, s, b, t) && Continues(config, b, t, c, u)
    ensures Continues(config, a, s, c, u)
  {
  }

  // ---------- Publishing ----------

  lemma Begun(config: Config, states: seq<World>, steps: seq<Step>, pub: Publication, id: nat)
    returns (longer: seq<World>, done: seq<Step>)
    requires Continues(config, states, steps, states, steps) && states != [] && id !in Last(states).flights
    requires config.limits.Valid() && Publishable(config, pub) && PointerKeyOf(pub) !in Last(states).store
    ensures Continues(config, states, steps, longer, done) && longer != []
    ensures var w, n := Last(states), Last(longer);
            && n == w.(tick := n.tick, flights := n.flights) && Underway(config, n, id)
            && n.flights[id].pub == pub && n.flights[id].put == map[]
  {
    hide Run, ObjectOk, ManifestReady, Populate;
    longer, done := Go(config, states, steps, states, steps, Begin(id, pub));
  }

  lemma PointerGoesIn(config: Config, w: World, id: nat)
    requires Underway(config, w, id) && w.flights[id].sealed && PointerKeyOf(w.flights[id].pub) !in w.store
    ensures Enabled(config, w, PutPointer(id))
    ensures var n, pub, k := Next(config, w, PutPointer(id)), w.flights[id].pub, PointerKeyOf(w.flights[id].pub);
            && n.store == w.store[k := Stored(PointerOf(pub), w.now)]
            && k in n.shown && n.shown[k].pub == pub
            && n.now == w.now && n.collectors == w.collectors
            && w.flights[id].put.Keys == KeysOf(pub)
  {
    hide Populate, ManifestReady, ObjectOk;
  }

  /** What has been stored since, given how much of it is in the flight. */
  lemma Published(config: Config, w: World, m: World, n: World, id: nat, pub: Publication)
    requires SameRest(w, m, id) && w.flights[id].pub == pub && w.flights[id].put == map[] && m.flights[id].put.Keys == KeysOf(pub)
    requires n.store == m.store[PointerKeyOf(pub) := Stored(PointerOf(pub), m.now)] && PointerKeyOf(pub) !in w.store
    ensures forall k | k in w.store :: k in n.store && n.store[k] == w.store[k]
    ensures n.store.Keys == w.store.Keys + KeysOf(pub) + {PointerKeyOf(pub)}
  {
    hide KeysOf, PointerKeyOf, PointerOf;
  }

  lemma Completed(config: Config, begun: seq<World>, first: seq<Step>, id: nat, pub: Publication)
    returns (longer: seq<World>, done: seq<Step>)
    requires Continues(config, begun, first, begun, first) && begun != [] && Underway(config, Last(begun), id)
    requires Last(begun).flights[id].pub == pub && Last(begun).flights[id].put == map[] && PointerKeyOf(pub) !in Last(begun).store
    ensures Continues(config, begun, first, longer, done) && longer != []
    ensures var w, n, k := Last(begun), Last(longer), PointerKeyOf(pub);
            && k in n.shown && n.shown[k].pub == pub && k in n.store && n.store[k].blob == PointerOf(pub)
            && (forall key | key in w.store :: key in n.store && n.store[key] == w.store[key])
            && n.store.Keys == w.store.Keys + KeysOf(pub) + {k}
            && n.now == w.now && n.collectors == w.collectors
  {
    hide Run, Publishable, KeysOf, PointerKeyOf, PointerOf, FlightOk, Enabled, Next, SameRest;
    FlyingHere(begun, id, |first|);
    var stored, next := PutRest(config, begun, first, begun, first, id);
    RestOfFlight(Last(begun), Last(stored), id);
    IsPointer(pub);
    PointerGoesIn(config, Last(stored), id);
    longer, done := Go(config, begun, first, stored, next, PutPointer(id));
    Published(config, Last(begun), Last(stored), Last(longer), id, pub);
  }

  /** A publication that passes the checks, of a snapshot that is not visible, can be published whatever else is under way:
      the snapshot restores as staged, and nothing stored has changed but for what was added. */
  lemma PublishCompletes(config: Config, states: seq<World>, steps: seq<Step>, pub: Publication)
    returns (longer: seq<World>, done: seq<Step>)
    requires config.limits.Valid() && Run(config, states, steps) && states != []
    requires Publishable(config, pub) && PointerKeyOf(pub) !in Last(states).store
    ensures Continues(config, states, steps, longer, done) && longer != []
    ensures var w, n := Last(states), Last(longer);
            && PointerKeyOf(pub) in n.shown && n.shown[PointerKeyOf(pub)].pub == pub
            && Materialized(config, n.store, pub.scope, pub.manifest.snapshot) == Ok(FilesOf(EntriesOf(pub.objects)))
            && (forall k | k in w.store :: k in n.store && n.store[k] == w.store[k])
            && n.store.Keys == w.store.Keys + KeysOf(pub) + {PointerKeyOf(pub)}
            && n.now == w.now && n.collectors == w.collectors
  {
    assert Continues(config, states, steps, states, steps);
    hide Run, Publishable, Materialized, FilesOf, EntriesOf, KeysOf, PointerKeyOf, PointerOf, Underway, SameRest;
    var id := Above(Last(states).flights.Keys);
    var begun, first := Begun(config, states, steps, pub, id);
    longer, done := Completed(config, begun, first, id, pub);
    ContinuesOn(config, states, steps, begun, first, longer, done);
    StoreIsOk(config, longer, done);
    MaterializesPublished(config, Last(longer).store, pub);
  }

  lemma StoreIsOk(config: Config, states: seq<World>, steps: seq<Step>)
    requires Run(config, states, steps) && states != []
    ensures StoreOk(Last(states).store)
  {
    RunOk(config, states, steps, |states| - 1);
  }

  // ---------- Collecting ----------

  /** Every reference of the scope loads, and none leads to the blob, which is past the grace period. */
  ghost predicate Garbage(config: Config, w: World, key: Key) {
    && key.ObjectKey? && key in w.store && w.store[key].modified + config.limits.grace <= w.now
    && forall s | s in Snapshots(w.store, key.scope) ::
         LoadManifest(config, w.store, key.scope, s).Ok? && key !in Found(config, w.store, key.scope, s)
  }

  /** The collection has still to scan some of the snapshots, and has not come across the blob. */
  ghost predicate Scanning(config: Config, w: World, id: nat, key: Key) {
    && Collecting(config, w, id) && Garbage(config, w, key)
    && var c := w.collectors[id];
       c.scope == key.scope && c.listed && c.cutoff.None? && key !in c.reachable && c.pending <= Snapshots(w.store, key.scope)
  }

  lemma {:induction false} ScanAll(
    config: Config, start: seq<World>, first: seq<Step>, states: seq<World>, steps: seq<Step>, id: nat, key: Key)
    returns (longer: seq<World>, done: seq<Step>)
    requires Continues(config, start, first, states, steps) && states != [] && Scanning(config, Last(states), id, key)
    ensures Continues(config, start, first, longer, done) && longer != []
    ensures Scanning(config, Last(longer), id, key) && Last(longer).collectors[id].pending == {}
    ensures Last(longer).store == Last(states).store && Last(longer).shown == Last(states).shown
    ensures Last(longer).now == Last(states).now && Last(longer).flights == Last(states).flights
    decreases |Last(states).collectors[id].pending|
  {
    hide Run, LoadManifest, Found;
    var pending := Last(states).collectors[id].pending;
    if pending == {} {
      longer, done := states, steps;
    } else {
      var s :| s in pending;
      var more, taken := Go(config, start, first, states, steps, Scan(id, s));
      assert |pending - {s}| < |pending|;
      longer, done := ScanAll(config, start, first, more, taken, id, key);
    }
  }

  lemma StartScan(config: Config, states: seq<World>, steps: seq<Step>, id: nat, key: Key)
    returns (longer: seq<World>, done: seq<Step>)
    requires Continues(config, states, steps, states, steps) && states != [] && id !in Last(states).collectors
    requires config.limits.Valid() && Garbage(config, Last(states), key)
    ensures Continues(config, states, steps, longer, done) && longer != [] && Scanning(config, Last(longer), id, key)
    ensures Last(longer).store == Last(states).store && Last(longer).shown == Last(states).shown
    ensures Last(longer).now == Last(states).now && Last(longer).flights == Last(states).flights
  {
    hide Run, LoadManifest, Found;
    longer, done := Go(config, states, steps, states, steps, Collect(id, key.scope));
    longer, done := Go(config, states, steps, longer, done, List(id));
  }

  lemma EndScan(config: Config, start: seq<World>, first: seq<Step>, states: seq<World>, steps: seq<Step>, id: nat, key: Key)
    returns (longer: seq<World>, done: seq<Step>)
    requires Continues(config, start, first, states, steps) && states != []
    requires Scanning(config, Last(states), id, key) && Last(states).collectors[id].pending == {}
    ensures Continues(config, start, first, longer, done) && longer != []
    ensures Last(longer).store == Last(states).store - {key} && Last(longer).shown == Last(states).shown
    ensures Last(longer).now == Last(states).now && Last(longer).flights == Last(states).flights
  {
    hide Run, LoadManifest, Found, Snapshots;
    longer, done := Go(config, start, first, states, steps, Cut(id));
    longer, done := Go(config, start, first, longer, done, Mark(id, key));
    longer, done := Go(config, start, first, longer, done, Delete(id, key));
  }

  /** Garbage can be collected whatever else is under way, and nothing else need go. */
  lemma GarbageGoes(config: Config, states: seq<World>, steps: seq<Step>, key: Key)
    returns (longer: seq<World>, done: seq<Step>)
    requires config.limits.Valid() && Run(config, states, steps) && states != [] && Garbage(config, Last(states), key)
    ensures Continues(config, states, steps, longer, done) && longer != []
    ensures var w, n := Last(states), Last(longer);
            n.store == w.store - {key} && n.shown == w.shown && n.flights == w.flights && n.now == w.now
  {
    assert Continues(config, states, steps, states, steps);
    hide Run, Garbage;
    var id := Above(Last(states).collectors.Keys);
    longer, done := StartScan(config, states, steps, id, key);
    longer, done := ScanAll(config, states, steps, longer, done, id, key);
    longer, done := EndScan(config, states, steps, longer, done, id, key);
  }
}
