/** Where the conditions on garbage collection are needed: runs that leave a visible snapshot without a blob. */
module ArtifactRaces {
  import opened Outcomes
  import opened Artifacts
  import opened ArtifactStore
  import opened ArtifactRuns

  /** No two collections of one scope at a time. */
  ghost predicate Exclusive(w: World) {
    forall i, j | i in w.collectors && j in w.collectors && i != j :: w.collectors[i].scope != w.collectors[j].scope
  }

  ghost predicate Orderly(states: seq<World>) {
    forall i | 0 <= i < |states| :: Exclusive(states[i])
  }

  /** A run under construction, with its last state. */
  ghost predicate Trace(config: Config, states: seq<World>, steps: seq<Step>, orderly: bool) {
    states != [] && Run(config, states, steps) && (orderly ==> Orderly(states))
  }

  function Last(states: seq<World>): World
    requires states != []
  {
    states[|states| - 1]
  }

  lemma Start(config: Config) returns (states: seq<World>, steps: seq<Step>)
    ensures Trace(config, states, steps, true) && Last(states) == Empty()
  {
    states, steps := [Empty()], [];
  }

  lemma Extend(config: Config, states: seq<World>, steps: seq<Step>, orderly: bool, s: Step)
    returns (longer: seq<World>, done: seq<Step>)
    requires Trace(config, states, steps, orderly) && Enabled(config, Last(states), s)
    requires orderly ==> |Next(config, Last(states), s).collectors| <= 1
    ensures Trace(config, longer, done, orderly) && Last(longer) == Next(config, Last(states), s)
  {
    hide Enabled, Next;
    var w := Next(config, Last(states), s);
    longer, done := states + [w], steps + [s];
    if orderly { OneCollector(w); }
  }

  lemma OneCollector(w: World)
    requires |w.collectors| <= 1
    ensures Exclusive(w)
  {
    forall i, j | i in w.collectors && j in w.collectors ensures i == j {
      var rest := w.collectors.Keys - {i};
      assert |rest| == |w.collectors.Keys| - 1 == |w.collectors| - 1;
      assert j !in rest;
    }
  }

  // ---------- A publish up to its pointer ----------

  /** Publish `id` has stored `count` objects, the first of them with modification time `modified`. */
  ghost predicate Storing(w: World, id: nat, p: Publication, started: real, modified: real, count: nat, sealed: bool)
    requires |p.objects| > 0
  {
    && w.flights.Keys == {id} && w.flights[id] == Flight(p, started, count, sealed, w.flights[id].put)
    && w.shown == map[] && (forall k | k in w.store :: k.ObjectKey?)
    && var first := ObjectKeyOf(p, 0);
    && (first in w.store ==> w.store[first].modified == modified)
    && (count > 0 ==> first in w.store && first in w.flights[id].put && w.flights[id].put[first] == modified)
  }

  lemma StoreOne(
    config: Config, states: seq<World>, steps: seq<Step>, orderly: bool,
    id: nat, p: Publication, started: real, modified: real, count: nat, written: real)
    returns (longer: seq<World>, done: seq<Step>)
    requires Trace(config, states, steps, orderly) && Publishable(config, p) && (orderly ==> |Last(states).collectors| <= 1)
    requires Storing(Last(states), id, p, started, modified, count, false) && count < |p.objects|
    requires InTime(config, Last(states), started) && started <= written <= Last(states).now
    requires ObjectKeyOf(p, 0) in Last(states).store || written == modified
    ensures Trace(config, longer, done, orderly) && Storing(Last(longer), id, p, started, modified, count + 1, false)
    ensures Last(longer).now == Last(states).now && Last(longer).collectors == Last(states).collectors
    ensures ObjectKeyOf(p, 0) in Last(longer).store
  {
    hide Run, Orderly, ManifestReady, Startable;
    assert ObjectOk(config, p.objects, count);
    longer, done := Extend(config, states, steps, orderly, PutObject(id, written));
  }

  lemma {:induction false} StoreRest(
    config: Config, states: seq<World>, steps: seq<Step>, orderly: bool,
    id: nat, p: Publication, started: real, modified: real, count: nat)
    returns (longer: seq<World>, done: seq<Step>)
    requires Trace(config, states, steps, orderly) && Publishable(config, p) && (orderly ==> |Last(states).collectors| <= 1)
    requires Storing(Last(states), id, p, started, modified, count, false) && 0 < count <= |p.objects|
    requires InTime(config, Last(states), started) && started <= Last(states).now
    ensures Trace(config, longer, done, orderly) && Storing(Last(longer), id, p, started, modified, |p.objects|, true)
    ensures Last(longer).now == Last(states).now && Last(longer).collectors == Last(states).collectors
    decreases |p.objects| - count
  {
    hide Run, Orderly, ManifestReady, Startable, ObjectOk, Populate;
    if count < |p.objects| {
      longer, done := StoreOne(config, states, steps, orderly, id, p, started, modified, count, started);
      longer, done := StoreRest(config, longer, done, orderly, id, p, started, modified, count + 1);
    } else {
      longer, done := Extend(config, states, steps, orderly, PutManifest(id, started));
      NotManifest(p);
    }
  }

  lemma NotManifest(p: Publication)
    requires |p.objects| > 0
    ensures ManifestKeyOf(p) != ObjectKeyOf(p, 0)
  {
  }

  /** The snapshot is visible, its first object went with modification time `modified`, and is not in the store. */
  ghost predicate Lost(config: Config, w: World, p: Publication, started: real, modified: real)
    requires |p.objects| > 0
  {
    var k, first := PointerKeyOf(p), ObjectKeyOf(p, 0);
    && k in w.shown && k in w.store && w.shown[k].pub == p && w.shown[k].started == started
    && first in w.shown[k].put && w.shown[k].put[first] == modified
    && first !in w.store
    && Materialized(config, w.store, p.scope, p.manifest.snapshot).Err?
  }

  lemma LostIfMissing(config: Config, w: World, p: Publication)
    requires StoreOk(w.store) && Publishable(config, p) && |p.objects| > 0
    requires PointerKeyOf(p) in w.store && w.store[PointerKeyOf(p)].blob == PointerOf(p)
    requires ObjectKeyOf(p, 0) !in w.store
    ensures Materialized(config, w.store, p.scope, p.manifest.snapshot).Err?
  {
    hide StoreOk, Publishable, Materialized, Populate;
    assert ObjectKeyOf(p, 0) in ObjectKeys(p, |p.objects|);
    RestoresIffStored(config, w.store, p);
  }

  lemma {:induction false} RunStore(config: Config, states: seq<World>, steps: seq<Step>, i: nat)
    requires Run(config, states, steps) && i < |states|
    ensures StoreOk(states[i].store)
  {
    hide Enabled, Next;
    if i > 0 {
      RunStore(config, states, steps, i - 1);
      NextStore(config, states[i - 1], steps[i - 1]);
    }
  }

  // ---------- Late collection ----------

  /** Before anything else is in the store: publish 1, begun at `started`, finds or makes its first object with
      modification time `modified`. */
  lemma FirstObject(config: Config, p: Publication, started: real, modified: real)
    returns (states: seq<World>, steps: seq<Step>)
    requires config.limits.Valid() && Publishable(config, p)
    requires 0.0 <= started && 0.0 <= modified < started + config.limits.timeout
    ensures Trace(config, states, steps, true) && Storing(Last(states), 1, p, started, modified, 1, false)
    ensures Last(states).now == (if started <= modified then modified else started) && Last(states).collectors == map[]
  {
    hide Run, Orderly, ManifestReady, ObjectOk, Populate;
    states, steps := Start(config);
    if started <= modified {
      states, steps := Extend(config, states, steps, true, Wait(started));
      states, steps := Extend(config, states, steps, true, Begin(1, p));
      states, steps := Extend(config, states, steps, true, Wait(modified));
      states, steps := StoreOne(config, states, steps, true, 1, p, started, modified, 0, modified);
    } else {
      states, steps := Extend(config, states, steps, true, Wait(modified));
      states, steps := Extend(config, states, steps, true, Begin(0, p));
      states, steps := StoreOne(config, states, steps, true, 0, p, modified, modified, 0, modified);
      states, steps := Extend(config, states, steps, true, Abandon(0));
      states, steps := Extend(config, states, steps, true, Wait(started));
      states, steps := Extend(config, states, steps, true, Begin(1, p));
      states, steps := StoreOne(config, states, steps, true, 1, p, started, modified, 0, started);
    }
  }

  /** Collection 0 has listed the pointers before any was visible. */
  ghost predicate Listed(collectors: map<nat, Collector>, scope: Scope, started: real) {
    collectors.Keys == {0} && collectors[0] == Collector(scope, started, true, collectors[0].tick, {}, {}, None, {})
  }

  lemma ListedAlone(collectors: map<nat, Collector>, scope: Scope, started: real)
    requires Listed(collectors, scope, started)
    ensures |collectors| == 1
  {
    assert |collectors.Keys| == |collectors|;
  }

  lemma ListEarly(config: Config, states: seq<World>, steps: seq<Step>, p: Publication, started: real, modified: real, at: real)
    returns (longer: seq<World>, done: seq<Step>)
    requires Trace(config, states, steps, true) && config.limits.Valid() && |p.objects| > 0
    requires Storing(Last(states), 1, p, started, modified, |p.objects|, true)
    requires Last(states).now <= at && Last(states).collectors == map[]
    ensures Trace(config, longer, done, true) && Storing(Last(longer), 1, p, started, modified, |p.objects|, true)
    ensures Last(longer).now == at && Listed(Last(longer).collectors, p.scope, at)
  {
    hide Run, Orderly;
    longer, done := Extend(config, states, steps, true, Wait(at));
    longer, done := Extend(config, longer, done, true, Collect(0, p.scope));
    longer, done := Extend(config, longer, done, true, List(0));
  }

  /** The pointer has been put and the first object is still stored. */
  ghost predicate Visible(w: World, p: Publication, started: real, modified: real)
    requires |p.objects| > 0
  {
    var k, first := PointerKeyOf(p), ObjectKeyOf(p, 0);
    && k in w.shown && w.shown[k].pub == p && w.shown[k].started == started
    && k in w.store && w.store[k].blob == PointerOf(p)
    && first in w.shown[k].put && w.shown[k].put[first] == modified
    && first in w.store && w.store[first].modified == modified
  }

  lemma ShowAt(config: Config, states: seq<World>, steps: seq<Step>, orderly: bool,
               id: nat, p: Publication, started: real, modified: real, at: real)
    returns (longer: seq<World>, done: seq<Step>)
    requires Trace(config, states, steps, orderly) && |p.objects| > 0
    requires Storing(Last(states), id, p, started, modified, |p.objects|, true)
    requires (orderly ==> |Last(states).collectors| <= 1) && Last(states).now <= at < started + config.limits.timeout
    ensures Trace(config, longer, done, orderly) && Visible(Last(longer), p, started, modified)
    ensures Last(longer).now == at && Last(longer).collectors == Last(states).collectors
  {
    hide Run, Orderly, Populate;
    longer, done := Extend(config, states, steps, orderly, Wait(at));
    longer, done := Extend(config, longer, done, orderly, PutPointer(id));
  }

  lemma CollectLate(config: Config, states: seq<World>, steps: seq<Step>, p: Publication, started: real, modified: real,
                    begun: real, at: real)
    returns (longer: seq<World>, done: seq<Step>)
    requires Trace(config, states, steps, true) && |p.objects| > 0 && Publishable(config, p)
    requires Visible(Last(states), p, started, modified) && Listed(Last(states).collectors, p.scope, begun)
    requires Last(states).now <= at < begun + config.limits.timeout && modified + config.limits.grace <= at
    ensures Trace(config, longer, done, true) && Lost(config, Last(longer), p, started, modified)
  {
    hide Run, Orderly, Populate, Materialized, Publishable;
    var first := ObjectKeyOf(p, 0);
    longer, done := Extend(config, states, steps, true, Wait(at));
    longer, done := Extend(config, longer, done, true, Cut(0));
    longer, done := Extend(config, longer, done, true, Mark(0, first));
    longer, done := Extend(config, longer, done, true, Delete(0, first));
    TraceStore(config, longer, done, true);
    LostIfMissing(config, Last(longer), p);
  }

  lemma TraceStore(config: Config, states: seq<World>, steps: seq<Step>, orderly: bool)
    requires Trace(config, states, steps, orderly)
    ensures StoreOk(Last(states).store)
  {
    RunStore(config, states, steps, |steps|);
  }

  /** The condition under which blobs are kept is needed in full: whenever it fails, even by the least amount and with
      one collection at a time, some run loses a blob of a visible snapshot. */
  lemma LostUnlessKept(config: Config, p: Publication, started: real, modified: real)
    returns (states: seq<World>, steps: seq<Step>)
    requires config.limits.Valid() && Publishable(config, p)
    requires 0.0 <= started && 0.0 <= modified && !Kept(config, started, modified)
    ensures Run(config, states, steps) && Orderly(states)
    ensures Lost(config, Last(states), p, started, modified)
  {
    hide Run, Orderly, Lost, Visible, Storing, Listed, ManifestReady, ObjectOk;
    var end, due := started + config.limits.timeout, modified + config.limits.grace;
    var stored := if started <= modified then modified else started;
    var latest := if stored <= due - config.limits.timeout then due - config.limits.timeout else stored;
    var begun := (latest + end) / 2.0;
    var shown := (begun + end) / 2.0;
    states, steps := FirstObject(config, p, started, modified);
    states, steps := StoreRest(config, states, steps, true, 1, p, started, modified, 1);
    states, steps := ListEarly(config, states, steps, p, started, modified, begun);
    ListedAlone(Last(states).collectors, p.scope, begun);
    states, steps := ShowAt(config, states, steps, true, 1, p, started, modified, shown);
    states, steps := CollectLate(config, states, steps, p, started, modified, begun, if shown <= due then due else shown);
  }

  // ---------- Overlapping collections ----------

  /** Publish 0 leaves an object behind, for as long as the grace period. */
  lemma LeaveObject(config: Config, p: Publication) returns (states: seq<World>, steps: seq<Step>)
    requires config.limits.Valid() && Publishable(config, p)
    ensures Trace(config, states, steps, false)
    ensures var w, first := Last(states), ObjectKeyOf(p, 0);
            && w.now == config.limits.grace && w.flights == map[] && w.shown == map[] && w.collectors == map[]
            && w.store.Keys == {first} && w.store[first].modified == 0.0
  {
    hide Run, Orderly, ManifestReady, ObjectOk, Populate;
    states, steps := Start(config);
    states, steps := Extend(config, states, steps, false, Begin(0, p));
    assert ObjectOk(config, p.objects, 0);
    states, steps := Extend(config, states, steps, false, PutObject(0, 0.0));
    states, steps := Extend(config, states, steps, false, Abandon(0));
    states, steps := Extend(config, states, steps, false, Wait(config.limits.grace));
  }

  /** Two collections, one after the other, find that object old enough to delete, and the second deletes it. */
  lemma TwiceMarked(config: Config, p: Publication) returns (states: seq<World>, steps: seq<Step>)
    requires config.limits.Valid() && Publishable(config, p)
    ensures Trace(config, states, steps, false)
    ensures var w, first := Last(states), ObjectKeyOf(p, 0);
            && w.now == config.limits.grace && w.flights == map[] && w.shown == map[] && w.store == map[]
            && 0 in w.collectors && first in w.collectors[0].doomed && w.collectors[0].started == w.now
  {
    hide Run, Orderly, ManifestReady, ObjectsOk, Populate;
    var first := ObjectKeyOf(p, 0);
    states, steps := LeaveObject(config, p);
    states, steps := MarkOne(config, states, steps, 0, first);
    states, steps := MarkOne(config, states, steps, 1, first);
    states, steps := Extend(config, states, steps, false, Delete(1, first));
  }

  lemma ListNothing(config: Config, states: seq<World>, steps: seq<Step>, id: nat, key: Key)
    returns (longer: seq<World>, done: seq<Step>)
    requires Trace(config, states, steps, false) && config.limits.Valid() && key.ObjectKey?
    requires id !in Last(states).collectors && Last(states).store.Keys == {key}
    ensures Trace(config, longer, done, false)
    ensures var w, before := Last(longer), Last(states);
            && id in w.collectors
            && w.collectors == before.collectors[id := Collector(key.scope, w.now, true, w.collectors[id].tick, {}, {}, None, {})]
            && w == before.(tick := w.tick, collectors := w.collectors)
  {
    hide Run, Orderly, LoadManifest, Entries, Startable, ObjectOk, ManifestReady, Populate;
    longer, done := Extend(config, states, steps, false, Collect(id, key.scope));
    longer, done := Extend(config, longer, done, false, List(id));
    assert Last(longer).collectors[id].pending == {};
  }

  lemma MarkOne(config: Config, states: seq<World>, steps: seq<Step>, id: nat, key: Key)
    returns (longer: seq<World>, done: seq<Step>)
    requires Trace(config, states, steps, false) && config.limits.Valid() && key.ObjectKey?
    requires id !in Last(states).collectors && Last(states).store.Keys == {key}
    requires Last(states).store[key].modified + config.limits.grace <= Last(states).now
    ensures Trace(config, longer, done, false)
    ensures var w, before := Last(longer), Last(states);
            && w.collectors.Keys == before.collectors.Keys + {id}
            && (forall other | other in before.collectors :: w.collectors[other] == before.collectors[other])
            && w.collectors[id].doomed == {key} && w.collectors[id].started == w.now
            && w == before.(tick := w.tick, collectors := w.collectors)
  {
    hide Run, Orderly, LoadManifest, Entries, Startable, ObjectOk, ManifestReady, Populate;
    longer, done := ListNothing(config, states, steps, id, key);
    longer, done := Extend(config, longer, done, false, Cut(id));
    longer, done := Extend(config, longer, done, false, Mark(id, key));
  }

  /** With two collections of one scope at a time, no grace period keeps even a blob that the publish created itself. */
  lemma OverlappingCollectionsLose(config: Config, p: Publication) returns (states: seq<World>, steps: seq<Step>)
    requires config.limits.Valid() && Publishable(config, p)
    ensures Run(config, states, steps)
    ensures Lost(config, Last(states), p, config.limits.grace, config.limits.grace)
  {
    hide Run, Orderly, ManifestReady, ObjectOk, Populate, Materialized;
    var first, now := ObjectKeyOf(p, 0), config.limits.grace;
    states, steps := TwiceMarked(config, p);
    states, steps := Extend(config, states, steps, false, Begin(1, p));
    states, steps := StoreOne(config, states, steps, false, 1, p, now, now, 0, now);
    states, steps := StoreRest(config, states, steps, false, 1, p, now, now, 1);
    states, steps := ShowAt(config, states, steps, false, 1, p, now, now, now);
    states, steps := Extend(config, states, steps, false, Delete(0, first));
    TraceStore(config, states, steps, false);
    LostIfMissing(config, Last(states), p);
  }

  // ---------- The exact condition on marks ----------

  ghost predicate Continues(config: Config, states: seq<World>, steps: seq<Step>, longer: seq<World>, done: seq<Step>) {
    && Run(config, longer, done) && |states| == |steps| + 1 && |longer| == |done| + 1
    && states <= longer && steps <= done
  }

  lemma Go(config: Config, start: seq<World>, first: seq<Step>, states: seq<World>, steps: seq<Step>, s: Step)
    returns (longer: seq<World>, done: seq<Step>)
    requires Continues(config, start, first, states, steps) && Enabled(config, Last(states), s)
    ensures Continues(config, start, first, longer, done)
    ensures longer == states + [Next(config, Last(states), s)] && done == steps + [s]
    ensures Last(longer) == Next(config, Last(states), s)
  {
    hide Enabled, Next;
    longer, done := states + [Next(config, Last(states), s)], steps + [s];
  }

  /** The publish can be carried on in this state. */
  ghost predicate Underway(config: Config, w: World, id: nat) {
    && id in w.flights && InTime(config, w, w.flights[id].started) && FlightOk(config, w.now, w.flights[id])
    && Publishable(config, w.flights[id].pub)
  }

  /** What carrying it on leaves as it was. */
  ghost predicate SameRest(w: World, n: World, id: nat) {
    && n.now == w.now && n.collectors == w.collectors
    && id in w.flights && id in n.flights
    && n.flights[id].pub == w.flights[id].pub && n.flights[id].started == w.flights[id].started
    && (forall k: Key | !k.ObjectKey? :: k in n.store <==> k in w.store)
    && (forall k | k in w.store :: k in n.store && n.store[k] == w.store[k])
    && (forall k | k in n.store :: k in w.store || k in n.flights[id].put)
    && w.flights[id].put.Keys <= n.flights[id].put.Keys
    && (w.flights[id].put.Keys <= w.store.Keys ==> n.flights[id].put.Keys <= n.store.Keys)
  }

  lemma RestOfFlight(w: World, n: World, id: nat)
    requires SameRest(w, n, id)
    ensures n.now == w.now && n.collectors == w.collectors && id in w.flights && id in n.flights
    ensures n.flights[id].pub == w.flights[id].pub && n.flights[id].started == w.flights[id].started
    ensures forall k: Key | !k.ObjectKey? :: k in n.store <==> k in w.store
  {
  }

  lemma PutKeepsRest(config: Config, w: World, s: Step)
    requires Enabled(config, w, s) && (s.PutObject? || s.PutManifest?)
    ensures s.id in w.flights && SameRest(w, Next(config, w, s), s.id)
    ensures var f, g := w.flights[s.id], Next(config, w, s).flights[s.id];
            if s.PutObject? then g.count == f.count + 1 && g.sealed == f.sealed else g.sealed && g.count == f.count
  {
    hide ObjectOk, ManifestReady;
  }

  lemma PutOne(
    config: Config, start: seq<World>, first: seq<Step>, states: seq<World>, steps: seq<Step>, id: nat)
    returns (longer: seq<World>, done: seq<Step>)
    requires Continues(config, start, first, states, steps) && Underway(config, Last(states), id) && !Last(states).flights[id].sealed
    ensures Continues(config, start, first, longer, done) && longer == states + [Last(longer)] && |done| == |steps| + 1
    ensures Underway(config, Last(longer), id) && SameRest(Last(states), Last(longer), id)
    ensures var f, g := Last(states).flights[id], Last(longer).flights[id];
            if f.count < |f.pub.objects| then g.count == f.count + 1 && !g.sealed else g.sealed && g.count == f.count
  {
    hide Run, ManifestReady, Startable, ObjectKeys, SameRest;
    var w := Last(states);
    var f := w.flights[id];
    var s := if f.count < |f.pub.objects| then PutObject(id, w.now) else PutManifest(id, w.now);
    if f.count < |f.pub.objects| { assert ObjectOk(config, f.pub.objects, f.count); }
    assert Enabled(config, w, s);
    hide Next, Enabled, ObjectOk;
    longer, done := Go(config, start, first, states, steps, s);
    PutKeepsRest(config, w, s);
    NextFlight(config, w, s, id);
    RestOfFlight(w, Last(longer), id);
  }

  lemma {:induction false} PutRest(
    config: Config, start: seq<World>, first: seq<Step>, states: seq<World>, steps: seq<Step>, id: nat)
    returns (longer: seq<World>, done: seq<Step>)
    requires Continues(config, start, first, states, steps) && Underway(config, Last(states), id)
    requires Flying(states, id, |first|, |steps|)
    ensures Continues(config, start, first, longer, done) && Flying(longer, id, |first|, |done|)
    ensures Underway(config, Last(longer), id) && SameRest(Last(states), Last(longer), id) && Last(longer).flights[id].sealed
    decreases |Last(states).flights[id].pub.objects| - Last(states).flights[id].count, !Last(states).flights[id].sealed
  {
    hide Run, Publishable, FlightOk;
    if Last(states).flights[id].sealed {
      longer, done := states, steps;
    } else {
      CountBounded(config, Last(states), id);
      var more, taken := PutOne(config, start, first, states, steps, id);
      longer, done := PutRest(config, start, first, more, taken, id);
    }
  }

  lemma CountBounded(config: Config, w: World, id: nat)
    requires Underway(config, w, id)
    ensures w.flights[id].count <= |w.flights[id].pub.objects|
  {
  }

  /** After the given run, publish `id` goes on to make its snapshot visible, and the snapshot is then referenced without
      the blob. */
  ghost predicate LosesBlob(
    config: Config, states: seq<World>, steps: seq<Step>, id: nat, key: Key,
    longer: seq<World>, done: seq<Step>, p: nat, j: nat, k: Key)
  {
    && Continues(config, states, steps, longer, done)
    && ShowsUntil(longer, done, id, |steps|, p, j, k) && key !in longer[j].store
  }

  /** A marked blob is lost by finishing the publish before the collection acts on the mark. */
  lemma MarkedIsLost(config: Config, states: seq<World>, steps: seq<Step>, id: nat, key: Key, x: nat)
    returns (longer: seq<World>, done: seq<Step>, p: nat, j: nat, k: Key)
    requires Run(config, states, steps) && states != [] && Underway(config, Last(states), id)
    requires PointerKeyOf(Last(states).flights[id].pub) !in Last(states).store
    requires Collecting(config, Last(states), x) && key in Last(states).collectors[x].doomed
    ensures LosesBlob(config, states, steps, id, key, longer, done, p, j, k)
  {
    assert |states| == |steps| + 1;
    assert Continues(config, states, steps, states, steps);
    hide Run, FlightOk, Publishable, Enabled, Next, Flying, PointerKeyOf, SameRest;
    FlyingHere(states, id, |steps|);
    longer, done := PutRest(config, states, steps, states, steps, id);
    RestOfFlight(Last(states), Last(longer), id);
    p := |done|;
    k := PointerKeyOf(Last(longer).flights[id].pub);
    IsPointer(Last(longer).flights[id].pub);
    var before, taken := longer, done;
    longer, done := ShowPointer(config, states, steps, before, taken, id);
    var shown := Last(longer);
    longer, done := DeleteMarked(config, states, steps, longer, done, x, key);
    j := |done|;
    Assemble(states, steps, id, key, before, taken, shown, longer, done, k);
  }

  lemma IsPointer(p: Publication)
    ensures !PointerKeyOf(p).ObjectKey?
  {
  }

  lemma Assemble(
    states: seq<World>, steps: seq<Step>, id: nat, key: Key,
    before: seq<World>, taken: seq<Step>, shown: World, longer: seq<World>, done: seq<Step>, k: Key)
    requires |before| == |taken| + 1 && |steps| <= |taken| && Flying(before, id, |steps|, |taken|)
    requires |longer| == |before| + 2 && longer[..|before| + 1] == before + [shown]
    requires |done| == |taken| + 2 && done[|taken|] == PutPointer(id) && done[|taken| + 1].Delete?
    requires Publishes(Last(before), PutPointer(id), k)
    ensures ShowsUntil(longer, done, id, |steps|, |taken|, |done|, k)
  {
    hide Publishes;
    assert before <= longer by { assert longer[..|before|] == (longer[..|before| + 1])[..|before|] == before; }
    assert longer[|taken|] == (longer[..|before| + 1])[|taken|] == Last(before);
    FlyingLonger(before, longer, id, |steps|, |taken|);
  }

  lemma FlyingHere(states: seq<World>, id: nat, i: nat)
    requires i < |states| && id in states[i].flights
    ensures Flying(states, id, i, i)
  {
  }

  lemma ShowPointer(config: Config, start: seq<World>, first: seq<Step>, states: seq<World>, steps: seq<Step>, id: nat)
    returns (longer: seq<World>, done: seq<Step>)
    requires Continues(config, start, first, states, steps) && Underway(config, Last(states), id) && Last(states).flights[id].sealed
    requires PointerKeyOf(Last(states).flights[id].pub) !in Last(states).store
    ensures Continues(config, start, first, longer, done) && longer == states + [Last(longer)] && done == steps + [PutPointer(id)]
    ensures Publishes(Last(states), PutPointer(id), PointerKeyOf(Last(states).flights[id].pub))
    ensures Last(longer).now == Last(states).now && Last(longer).collectors == Last(states).collectors
  {
    hide Run, Populate, FlightOk, Publishable;
    longer, done := Go(config, start, first, states, steps, PutPointer(id));
  }

  lemma DeleteMarked(config: Config, start: seq<World>, first: seq<Step>, states: seq<World>, steps: seq<Step>, x: nat, key: Key)
    returns (longer: seq<World>, done: seq<Step>)
    requires Continues(config, start, first, states, steps)
    requires Collecting(config, Last(states), x) && key in Last(states).collectors[x].doomed
    ensures Continues(config, start, first, longer, done) && longer == states + [Last(longer)] && done == steps + [Delete(x, key)]
    ensures key !in Last(longer).store
  {
    hide Run;
    longer, done := Go(config, start, first, states, steps, Delete(x, key));
  }

  lemma FlyingLonger(states: seq<World>, longer: seq<World>, id: nat, i: nat, j: nat)
    requires Flying(states, id, i, j) && states <= longer
    ensures Flying(longer, id, i, j)
  {
  }

  /** For a blob put late enough by a publish under way: it stays, in every continuation in which the publish makes its
      snapshot visible and for as long as that is referenced, if and only if no collection with time left has marked an
      earlier blob of its key. */
  lemma KeptExactly(config: Config, states: seq<World>, steps: seq<Step>, id: nat, key: Key)
    requires config.limits.Valid() && Run(config, states, steps) && states != [] && Underway(config, Last(states), id)
    requires PointerKeyOf(Last(states).flights[id].pub) !in Last(states).store
    requires var w, f := Last(states), Last(states).flights[id];
             && key in f.put && Kept(config, f.started, f.put[key])
             && key in w.store && w.store[key].modified == f.put[key]
    ensures Unmarked(config, Last(states), key) <==>
            forall longer, done, p, j, k :: !LosesBlob(config, states, steps, id, key, longer, done, p, j, k)
  {
    var w := Last(states);
    assert |states| == |steps| + 1 && w == states[|steps|];
    PutsObjects(config, w.now, w.flights[id]);
    hide Run, FlightOk, Publishable;
    if Unmarked(config, w, key) {
      forall longer, done, p, j, k ensures !LosesBlob(config, states, steps, id, key, longer, done, p, j, k) {
        NeverLost(config, states, steps, id, key, longer, done, p, j, k);
      }
    } else {
      var x :| x in w.collectors && InTime(config, w, w.collectors[x].started) && key in w.collectors[x].doomed;
      var longer, done, p, j, k := MarkedIsLost(config, states, steps, id, key, x);
    }
  }

  lemma NeverLost(
    config: Config, states: seq<World>, steps: seq<Step>, id: nat, key: Key,
    longer: seq<World>, done: seq<Step>, p: nat, j: nat, k: Key)
    requires config.limits.Valid() && states != [] && |states| == |steps| + 1 && Secured(config, Last(states), id, key)
    ensures !LosesBlob(config, states, steps, id, key, longer, done, p, j, k)
  {
    hide Run, Secured;
    if LosesBlob(config, states, steps, id, key, longer, done, p, j, k) {
      assert longer[|steps|] == Last(states);
      KeptWhileShown(config, longer, done, id, |steps|, p, j, key, k);
    }
  }
}
