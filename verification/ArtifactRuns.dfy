/** Publishers, reference removals and garbage collectors sharing one store, step by step and in real time. */
module ArtifactRuns {
  import opened Outcomes
  import opened Artifacts
  import opened ArtifactStore

  /** A publish under way: what it has stored so far, each key with the modification time it then had. */
  datatype Flight = Flight(pub: Publication, started: real, count: nat, sealed: bool, put: map<Key, real>)

  /** Who put a pointer that is still in the store, and when. */
  datatype Shown = Shown(pub: Publication, started: real, at: real, tick: nat, put: map<Key, real>)

  /** A garbage collection under way: snapshots still to be scanned, keys found reachable, objects found collectable. */
  datatype Collector = Collector(
    scope: Scope, started: real, listed: bool, tick: nat,
    pending: set<string>, reachable: set<Key>, cutoff: Option<real>, doomed: set<Key>)

  datatype World = World(
    now: real, tick: nat, store: Store,
    flights: map<nat, Flight>, shown: map<Key, Shown>, collectors: map<nat, Collector>)

  function Empty(): World {
    World(0.0, 0, map[], map[], map[], map[])
  }

  datatype Step =
    | Wait(until: real)
    | Begin(id: nat, pub: Publication)
    | PutObject(id: nat, modified: real)
    | PutManifest(id: nat, modified: real)
    | PutPointer(id: nat)
    | Abandon(id: nat)
    | Remove(key: Key)
    | Collect(id: nat, scope: Scope)
    | List(id: nat)
    | Scan(id: nat, snapshot: string)
    | Cut(id: nat)
    | Mark(id: nat, key: Key)
    | Delete(id: nat, key: Key)
    | Finish(id: nat)

  // ---------- Steps ----------

  /** An operation acts only before its deadline, and the file it stores was written since it began. */
  predicate InTime(config: Config, w: World, started: real) {
    w.now < started + config.limits.timeout
  }

  predicate Writable(config: Config, w: World, id: nat, modified: real) {
    id in w.flights && InTime(config, w, w.flights[id].started) && w.flights[id].started <= modified <= w.now
  }

  predicate Collecting(config: Config, w: World, id: nat) {
    id in w.collectors && InTime(config, w, w.collectors[id].started)
  }

  predicate Enabled(config: Config, w: World, s: Step) {
    match s
    case Wait(until) => w.now <= until
    case Begin(id, pub) => id !in w.flights && Startable(config, pub) && PointerKeyOf(pub) !in w.store
    case PutObject(id, modified) =>
      && Writable(config, w, id, modified)
      && w.flights[id].count < |w.flights[id].pub.objects|
      && ObjectOk(config, w.flights[id].pub.objects, w.flights[id].count)
    case PutManifest(id, modified) =>
      && Writable(config, w, id, modified)
      && !w.flights[id].sealed
      && w.flights[id].count == |w.flights[id].pub.objects|
      && ManifestReady(config, w.flights[id].pub)
    case PutPointer(id) => id in w.flights && InTime(config, w, w.flights[id].started) && w.flights[id].sealed
    case Abandon(id) => id in w.flights
    case Remove(key) => key.PointerKey?
    case Collect(id, _) => id !in w.collectors
    case List(id) => Collecting(config, w, id) && !w.collectors[id].listed
    case Scan(id, snapshot) =>
      && Collecting(config, w, id)
      && snapshot in w.collectors[id].pending
      && LoadManifest(config, w.store, w.collectors[id].scope, snapshot).Ok?
    case Cut(id) =>
      && Collecting(config, w, id)
      && w.collectors[id].listed && w.collectors[id].pending == {} && w.collectors[id].cutoff.None?
    case Mark(id, key) =>
      && Collecting(config, w, id)
      && var c := w.collectors[id];
      && c.cutoff.Some? && key in w.store && key.ObjectKey? && key.scope == c.scope
      && key !in c.reachable && w.store[key].modified <= c.cutoff.value
    case Delete(id, key) => Collecting(config, w, id) && key in w.collectors[id].doomed
    case Finish(id) => id in w.collectors
  }

  function Put(f: Flight, store: Store, key: Key): Flight
    requires key in store
  {
    f.(put := f.put[key := store[key].modified])
  }

  function AfterPut(config: Config, w: World, s: Step): World
    requires Enabled(config, w, s) && (s.PutObject? || s.PutManifest? || s.PutPointer?)
  {
    var f := w.flights[s.id];
    match s
    case PutObject(id, modified) =>
      var key := ObjectKeyOf(f.pub, f.count);
      var store := PutIfAbsent(w.store, key, Envelope(key.scope, key.artifact, key.artifact.content), modified);
      w.(store := store, flights := w.flights[id := Put(f, store, key).(count := f.count + 1)])
    case PutManifest(id, modified) =>
      var key := ManifestKeyOf(f.pub);
      var store := PutIfAbsent(w.store, key, Envelope(key.scope, key.artifact, key.artifact.content), modified);
      w.(store := store, flights := w.flights[id := Put(f, store, key).(sealed := true)])
    case PutPointer(id) =>
      var key := PointerKeyOf(f.pub);
      if key in w.store then w.(flights := w.flights - {id})
      else
        w.(store := w.store[key := Stored(PointerOf(f.pub), w.now)],
           flights := w.flights - {id},
           shown := w.shown[key := Shown(f.pub, f.started, w.now, w.tick, f.put)])
  }

  function AfterCollector(config: Config, w: World, s: Step): World
    requires Enabled(config, w, s) && (s.List? || s.Scan? || s.Cut? || s.Mark? || s.Delete?)
  {
    var c := w.collectors[s.id];
    match s
    case List(id) =>
      w.(collectors := w.collectors[id := c.(listed := true, tick := w.tick, pending := Snapshots(w.store, c.scope))])
    case Scan(id, snapshot) =>
      var found := Found(config, w.store, c.scope, snapshot);
      w.(collectors := w.collectors[id := c.(pending := c.pending - {snapshot}, reachable := c.reachable + found)])
    case Cut(id) => w.(collectors := w.collectors[id := c.(cutoff := Some(w.now - config.limits.grace))])
    case Mark(id, key) => w.(collectors := w.collectors[id := c.(doomed := c.doomed + {key})])
    case Delete(id, key) =>
      w.(store := w.store - {key}, collectors := w.collectors[id := c.(doomed := c.doomed - {key})])
  }

  function Next(config: Config, w: World, s: Step): World
    requires Enabled(config, w, s)
  {
    var moved := match s
      case Wait(until) => w.(now := until)
      case Begin(id, pub) => w.(flights := w.flights[id := Flight(pub, w.now, 0, false, map[])])
      case Abandon(id) => w.(flights := w.flights - {id})
      case Remove(key) => w.(store := w.store - {key}, shown := w.shown - {key})
      case Collect(id, scope) =>
        w.(collectors := w.collectors[id := Collector(scope, w.now, false, 0, {}, {}, None, {})])
      case Finish(id) => w.(collectors := w.collectors - {id})
      case PutObject(_, _) => AfterPut(config, w, s)
      case PutManifest(_, _) => AfterPut(config, w, s)
      case PutPointer(_) => AfterPut(config, w, s)
      case _ => AfterCollector(config, w, s);
    moved.(tick := w.tick + 1)
  }

  ghost predicate Run(config: Config, states: seq<World>, steps: seq<Step>) {
    && |states| == |steps| + 1
    && states[0] == Empty()
    && forall i | 0 <= i < |steps| :: Enabled(config, states[i], steps[i]) && states[i + 1] == Next(config, states[i], steps[i])
  }

  // ---------- Invariant ----------

  ghost predicate ShownOk(config: Config, w: World) {
    && (forall k :: k in w.shown <==> k in w.store && k.PointerKey?)
    && forall k | k in w.shown :: ShowsOk(config, w, k, w.shown[k])
  }

  ghost predicate ShowsOk(config: Config, w: World, k: Key, v: Shown)
    requires k in w.store
  {
    && k == PointerKeyOf(v.pub) && w.store[k].blob == PointerOf(v.pub)
    && Publishable(config, v.pub)
    && v.put.Keys == KeysOf(v.pub)
    && v.tick < w.tick
    && v.at <= w.now && v.at < v.started + config.limits.timeout
  }

  ghost predicate FlightsOk(config: Config, w: World) {
    forall id | id in w.flights :: FlightOk(config, w.now, w.flights[id])
  }

  ghost predicate FlightOk(config: Config, now: real, f: Flight) {
    && f.started <= now
    && Startable(config, f.pub) && ObjectsOk(config, f.pub, f.count)
    && (f.sealed ==> f.count == |f.pub.objects| && ManifestReady(config, f.pub))
    && f.put.Keys == ObjectKeys(f.pub, f.count) + if f.sealed then {ManifestKeyOf(f.pub)} else {}
  }

  ghost predicate CutoffOk(config: Config, w: World, started: real, cutoff: real) {
    cutoff + config.limits.grace <= w.now && cutoff + config.limits.grace < started + config.limits.timeout
  }

  ghost predicate CollectorOk(config: Config, w: World, c: Collector) {
    && c.started <= w.now && c.tick <= w.tick
    && (!c.listed ==> c.cutoff.None?)
    && (c.cutoff.None? ==> c.doomed == {})
    && (c.cutoff.Some? ==> c.pending == {} && CutoffOk(config, w, c.started, c.cutoff.value))
    && (forall k | k in c.doomed :: k.ObjectKey? && k.scope == c.scope && k !in c.reachable)
  }

  ghost predicate CollectorsOk(config: Config, w: World) {
    forall id | id in w.collectors :: CollectorOk(config, w, w.collectors[id])
  }

  /** What a collection that has listed the pointers knows about those now in the store. */
  ghost predicate Covered(c: Collector, k: Key, v: Shown) {
    if v.tick < c.tick then k.PointerKey? && (k.snapshot in c.pending || KeysOf(v.pub) <= c.reachable)
    else c.started <= v.at
  }

  ghost predicate CoverageOk(w: World) {
    forall id, k | id in w.collectors && w.collectors[id].listed && k in w.shown && k.scope == w.collectors[id].scope ::
      Covered(w.collectors[id], k, w.shown[k])
  }

  ghost predicate WorldOk(config: Config, w: World) {
    StoreOk(w.store) && ShownOk(config, w) && FlightsOk(config, w) && CollectorsOk(config, w) && CoverageOk(w)
  }

  // ---------- Every step keeps the invariant ----------

  lemma NextStore(config: Config, w: World, s: Step)
    requires Enabled(config, w, s) && StoreOk(w.store)
    ensures StoreOk(Next(config, w, s).store)
  {
    hide ObjectOk, ManifestReady, Startable, LoadManifest, Entries;
  }

  /** Collections mark objects only. */
  ghost predicate MarksObjects(w: World) {
    forall id, k | id in w.collectors && k in w.collectors[id].doomed :: k.ObjectKey?
  }

  lemma NextMarks(config: Config, w: World, s: Step)
    requires Enabled(config, w, s) && MarksObjects(w)
    ensures MarksObjects(Next(config, w, s))
  {
    hide ObjectOk, ManifestReady, Startable, LoadManifest, Entries, Populate;
  }

  /** Only publishing and removing a reference touch pointers. */
  lemma PointersStay(config: Config, w: World, s: Step, k: Key)
    requires Enabled(config, w, s) && MarksObjects(w) && !s.PutPointer? && !s.Remove?
    requires k.PointerKey?
    ensures var n := Next(config, w, s);
            n.shown == w.shown && (k in n.store <==> k in w.store) && (k in w.store ==> n.store[k] == w.store[k])
  {
    hide ObjectOk, ManifestReady, Startable, LoadManifest, Entries, Populate;
    if s.Delete? { assert s.key in w.collectors[s.id].doomed && s.key.ObjectKey?; }
  }

  lemma ClockAdvances(config: Config, w: World, s: Step)
    requires Enabled(config, w, s)
    ensures var n := Next(config, w, s); n.tick == w.tick + 1 && w.now <= n.now && (!s.Wait? ==> n.now == w.now)
  {
    hide ObjectOk, ManifestReady, Startable, LoadManifest, Entries, Populate;
  }

  lemma NextShown(config: Config, w: World, s: Step)
    requires Enabled(config, w, s) && ShownOk(config, w) && FlightsOk(config, w) && CollectorsOk(config, w)
    ensures ShownOk(config, Next(config, w, s))
  {
    hide Enabled, Next, Publishable, Populate, KeysOf, FlightOk;
    var n := Next(config, w, s);
    ClockAdvances(config, w, s);
    assert MarksObjects(w) by {
      forall id, k | id in w.collectors && k in w.collectors[id].doomed ensures k.ObjectKey? {
        assert CollectorOk(config, w, w.collectors[id]);
      }
    }
    if s.PutPointer? {
      PutPointerShows(config, w, s);
    } else if s.Remove? {
      RemoveHides(config, w, s);
    } else {
      forall k: Key | k.PointerKey?
        ensures n.shown == w.shown && (k in n.store <==> k in w.store) && (k in w.store ==> n.store[k] == w.store[k])
      {
        PointersStay(config, w, s, k);
      }
      PointersStay(config, w, s, PointerKey(Scope("", ""), ""));
      forall k | k in n.shown ensures k in n.store && ShowsOk(config, n, k, n.shown[k]) {
        assert ShowsOk(config, w, k, w.shown[k]);
      }
    }
  }

  lemma PutPointerShows(config: Config, w: World, s: Step)
    requires Enabled(config, w, s) && ShownOk(config, w) && FlightsOk(config, w) && s.PutPointer?
    ensures ShownOk(config, Next(config, w, s))
  {
    hide Publishable, Populate, KeysOf, FlightOk;
    var n := Next(config, w, s);
    assert FlightOk(config, w.now, w.flights[s.id]);
    Sealed(config, w.now, w.flights[s.id]);
    forall k | k in n.shown ensures k in n.store && ShowsOk(config, n, k, n.shown[k]) {
      if k in w.shown { assert ShowsOk(config, w, k, w.shown[k]); }
    }
  }

  lemma RemoveHides(config: Config, w: World, s: Step)
    requires Enabled(config, w, s) && ShownOk(config, w) && s.Remove?
    ensures ShownOk(config, Next(config, w, s))
  {
    hide Publishable, Populate, KeysOf;
    var n := Next(config, w, s);
    forall k | k in n.shown ensures k in n.store && ShowsOk(config, n, k, n.shown[k]) {
      assert ShowsOk(config, w, k, w.shown[k]);
    }
  }

  lemma Sealed(config: Config, now: real, f: Flight)
    requires FlightOk(config, now, f) && f.sealed
    ensures Publishable(config, f.pub) && f.put.Keys == KeysOf(f.pub)
  {
  }

  lemma NextFlights(config: Config, w: World, s: Step)
    requires Enabled(config, w, s) && FlightsOk(config, w)
    ensures FlightsOk(config, Next(config, w, s))
  {
    hide Enabled, Next, FlightOk;
    var n := Next(config, w, s);
    ClockAdvances(config, w, s);
    forall id | id in n.flights ensures FlightOk(config, n.now, n.flights[id]) {
      if id in w.flights { assert FlightOk(config, w.now, w.flights[id]); }
      NextFlight(config, w, s, id);
    }
  }

  lemma NextFlight(config: Config, w: World, s: Step, id: nat)
    requires Enabled(config, w, s) && id in Next(config, w, s).flights
    requires id in w.flights ==> FlightOk(config, w.now, w.flights[id])
    ensures FlightOk(config, Next(config, w, s).now, Next(config, w, s).flights[id])
  {
    hide ObjectOk, ManifestReady, Startable, LoadManifest, Entries, Populate;
    if s.PutObject? && id == s.id {
      var f := w.flights[id];
      assert ObjectKeys(f.pub, f.count + 1) == ObjectKeys(f.pub, f.count) + {ObjectKeyOf(f.pub, f.count)};
    }
  }

  /** The steps of collection `id` itself. */
  predicate OwnStep(s: Step, id: nat) {
    && (s.Collect? || s.List? || s.Scan? || s.Cut? || s.Mark? || s.Delete?)
    && s.id == id
  }

  lemma CollectorAfterOwnStep(config: Config, w: World, s: Step, id: nat)
    requires Enabled(config, w, s) && OwnStep(s, id)
    requires id in w.collectors ==> CollectorOk(config, w, w.collectors[id])
    ensures id in Next(config, w, s).collectors
    ensures CollectorOk(config, Next(config, w, s), Next(config, w, s).collectors[id])
  {
    hide LoadManifest, Found;
  }

  lemma CollectorUnmoved(config: Config, w: World, s: Step, id: nat)
    requires Enabled(config, w, s) && !OwnStep(s, id) && id in Next(config, w, s).collectors
    ensures id in w.collectors && Next(config, w, s).collectors[id] == w.collectors[id]
  {
    hide ObjectOk, ManifestReady, Startable, LoadManifest, Found, Populate;
  }

  lemma NextCollectors(config: Config, w: World, s: Step)
    requires Enabled(config, w, s) && CollectorsOk(config, w)
    ensures CollectorsOk(config, Next(config, w, s))
  {
    hide Enabled, Next, Found, LoadManifest;
    var n := Next(config, w, s);
    ClockAdvances(config, w, s);
    forall id | id in n.collectors ensures CollectorOk(config, n, n.collectors[id]) {
      if OwnStep(s, id) {
        CollectorAfterOwnStep(config, w, s, id);
      } else {
        CollectorUnmoved(config, w, s, id);
        assert CollectorOk(config, w, w.collectors[id]);
      }
    }
  }

  // ---------- What collections leave alone ----------

  predicate Objects(put: map<Key, real>, scope: Scope) {
    forall k | k in put :: k.ObjectKey? && k.scope == scope
  }

  lemma PutsObjects(config: Config, now: real, f: Flight)
    requires FlightOk(config, now, f)
    ensures Objects(f.put, f.pub.scope)
  {
  }

  lemma ShowsObjects(config: Config, w: World, k: Key)
    requires ShownOk(config, w) && k in w.shown
    ensures Objects(w.shown[k].put, k.scope)
  {
    hide Publishable;
    assert ShowsOk(config, w, k, w.shown[k]);
  }

  /** Only deleting it takes an object from the store. */
  lemma ObjectStays(config: Config, w: World, s: Step, k: Key)
    requires Enabled(config, w, s) && k.ObjectKey? && k in w.store
    requires s.Delete? ==> s.key != k
    ensures k in Next(config, w, s).store && Next(config, w, s).store[k] == w.store[k]
  {
    hide ObjectOk, ManifestReady, Startable, LoadManifest, Entries, Populate;
  }

  // ---------- What collections see ----------

  /** Scanning a snapshot finds everything its publish stored. */
  lemma ScanFinds(config: Config, w: World, s: Step, k: Key)
    requires Enabled(config, w, s) && s.Scan? && StoreOk(w.store) && ShownOk(config, w)
    requires k in w.shown && k.scope == w.collectors[s.id].scope && k.snapshot == s.snapshot
    ensures KeysOf(w.shown[k].pub) <= Next(config, w, s).collectors[s.id].reachable
  {
    hide Entries, Populate, Publishable, StoreOk, ManifestOk, Size;
    var p := w.shown[k].pub;
    assert ShowsOk(config, w, k, w.shown[k]);
    assert LoadManifest(config, w.store, k.scope, k.snapshot) == Ok(Populated(p));
    forall i | 0 <= i < |p.objects| ensures ObjectKeyOf(p, i) in Next(config, w, s).collectors[s.id].reachable {
      Unpopulated(config, p);
      StagedIsListed(p, i);
    }
  }

  lemma Unpopulated(config: Config, p: Publication)
    requires Publishable(config, p)
    ensures p.manifest.containers == map[] && p.manifest.sandbox == []
  {
  }

  /** Publishing adds one pointer at the current time; nothing else adds one. */
  lemma ShownBefore(config: Config, w: World, s: Step, k: Key)
    requires Enabled(config, w, s) && ShownOk(config, w) && k in Next(config, w, s).shown
    ensures var n := Next(config, w, s);
            if k in w.shown then n.shown[k] == w.shown[k]
            else s.PutPointer? && n.shown[k].at == w.now && n.shown[k].tick == w.tick && k.scope == w.flights[s.id].pub.scope
  {
    hide ObjectOk, ManifestReady, Startable, LoadManifest, Entries, Populate, Publishable, KeysOf, ShowsOk;
  }

  lemma CollectorBefore(config: Config, w: World, s: Step, id: nat)
    requires Enabled(config, w, s) && id in Next(config, w, s).collectors && Next(config, w, s).collectors[id].listed
    ensures id in w.collectors
    ensures var n, c := Next(config, w, s).collectors[id], w.collectors[id];
            && n.scope == c.scope && n.started == c.started && c.reachable <= n.reachable
            && (if c.listed then n.tick == c.tick else s == List(id))
            && (!(s.Scan? && s.id == id) && s != List(id) ==> n.pending == c.pending)
            && (s.Scan? && s.id == id ==> n.pending == c.pending - {s.snapshot})
  {
    hide ObjectOk, ManifestReady, Startable, LoadManifest, Entries, Populate;
  }

  lemma ListSees(config: Config, w: World, s: Step, k: Key)
    requires Enabled(config, w, s) && s.List? && ShownOk(config, w)
    requires k in w.shown && k.scope == w.collectors[s.id].scope
    ensures w.shown[k].tick < Next(config, w, s).collectors[s.id].tick
    ensures Covered(Next(config, w, s).collectors[s.id], k, w.shown[k])
  {
    hide Publishable, KeysOf, Populate;
    assert ShowsOk(config, w, k, w.shown[k]);
  }

  lemma NextCovered(config: Config, w: World, s: Step, id: nat, k: Key)
    requires Enabled(config, w, s) && WorldOk(config, w)
    requires var n := Next(config, w, s);
             id in n.collectors && n.collectors[id].listed && k in n.shown && k.scope == n.collectors[id].scope
    ensures var n := Next(config, w, s); Covered(n.collectors[id], k, n.shown[k])
  {
    hide Enabled, Next, FlightsOk, StoreOk, KeysOf, ShowsOk, Populate;
    ShownBefore(config, w, s, k);
    CollectorBefore(config, w, s, id);
    assert CollectorOk(config, w, w.collectors[id]);
    if s == List(id) {
      NoPointer(config, w, s);
      ListSees(config, w, s, k);
    } else if k in w.shown {
      assert Covered(w.collectors[id], k, w.shown[k]);
      if s.Scan? && s.id == id && k.PointerKey? && k.snapshot == s.snapshot {
        NoPointer(config, w, s);
        ScanFinds(config, w, s, k);
      }
    }
  }

  lemma NoPointer(config: Config, w: World, s: Step)
    requires Enabled(config, w, s) && (s.List? || s.Scan?)
    ensures Next(config, w, s).shown == w.shown && s.id in w.collectors
  {
    hide LoadManifest, Entries;
  }

  lemma NextCoverage(config: Config, w: World, s: Step)
    requires Enabled(config, w, s) && WorldOk(config, w)
    ensures CoverageOk(Next(config, w, s))
  {
    hide Enabled, Next, WorldOk, Covered;
    var n := Next(config, w, s);
    forall id, k | id in n.collectors && n.collectors[id].listed && k in n.shown && k.scope == n.collectors[id].scope
      ensures Covered(n.collectors[id], k, n.shown[k])
    {
      NextCovered(config, w, s, id, k);
    }
  }

  lemma NextOk(config: Config, w: World, s: Step)
    requires Enabled(config, w, s) && WorldOk(config, w)
    ensures WorldOk(config, Next(config, w, s))
  {
    hide Enabled, Next, StoreOk, ShownOk, FlightsOk, CollectorsOk, CoverageOk;
    NextStore(config, w, s);
    NextShown(config, w, s);
    NextFlights(config, w, s);
    NextCollectors(config, w, s);
    NextCoverage(config, w, s);
  }

  lemma {:induction false} RunOk(config: Config, states: seq<World>, steps: seq<Step>, i: nat)
    requires Run(config, states, steps) && i < |states|
    ensures WorldOk(config, states[i])
  {
    hide Enabled, Next;
    if i == 0 {
      EmptyOk(config);
    } else {
      RunOk(config, states, steps, i - 1);
      assert Enabled(config, states[i - 1], steps[i - 1]);
      NextOk(config, states[i - 1], steps[i - 1]);
    }
  }

  lemma EmptyOk(config: Config)
    ensures WorldOk(config, Empty())
  {
  }

  // ---------- Collections that keep apart from publishes ----------

  /** No collection of a scope during a publish in it. */
  ghost predicate Apart(w: World) {
    forall i, j | i in w.flights && j in w.collectors :: w.flights[i].pub.scope != w.collectors[j].scope
  }

  ghost predicate Quiet(states: seq<World>) {
    forall i | 0 <= i < |states| :: Apart(states[i])
  }

  /** Every blob that was stored is stored still. */
  ghost predicate Holds(store: Store, put: map<Key, real>) {
    forall k | k in put :: k in store
  }

  ghost predicate HeldOk(w: World) {
    && (forall id | id in w.flights :: Holds(w.store, w.flights[id].put))
    && (forall k | k in w.shown :: Holds(w.store, w.shown[k].put))
  }

  /** Collections have listed every pointer of their scope. */
  ghost predicate SeenOk(w: World) {
    forall id, k | id in w.collectors && w.collectors[id].listed && k in w.shown && k.scope == w.collectors[id].scope ::
      w.shown[k].tick < w.collectors[id].tick
  }

  lemma NextSeen(config: Config, w: World, s: Step)
    requires Enabled(config, w, s) && ShownOk(config, w) && SeenOk(w) && Apart(w)
    ensures SeenOk(Next(config, w, s))
  {
    hide Enabled, Next, ShownOk, Apart;
    var n := Next(config, w, s);
    forall id, k | id in n.collectors && n.collectors[id].listed && k in n.shown && k.scope == n.collectors[id].scope
      ensures n.shown[k].tick < n.collectors[id].tick
    {
      ShownBefore(config, w, s, k);
      CollectorBefore(config, w, s, id);
      if s == List(id) {
        NoPointer(config, w, s);
        ListSees(config, w, s, k);
      } else if k !in w.shown {
        PublisherApart(config, w, s, id);
      }
    }
  }

  lemma PublisherApart(config: Config, w: World, s: Step, id: nat)
    requires Enabled(config, w, s) && s.PutPointer? && Apart(w) && id in w.collectors
    ensures s.id in w.flights && w.flights[s.id].pub.scope != w.collectors[id].scope
  {
  }

  lemma HoldsLater(config: Config, w: World, s: Step, put: map<Key, real>, scope: Scope)
    requires Enabled(config, w, s) && Holds(w.store, put) && Objects(put, scope) && (s.Delete? ==> s.key !in put)
    ensures Holds(Next(config, w, s).store, put)
  {
    hide Enabled, Next;
    forall k | k in put ensures k in Next(config, w, s).store { ObjectStays(config, w, s, k); }
  }

  lemma DeleteSparesFlight(config: Config, w: World, s: Step, id: nat)
    requires Enabled(config, w, s) && s.Delete? && FlightsOk(config, w) && CollectorsOk(config, w) && Apart(w) && id in w.flights
    ensures s.key !in w.flights[id].put
  {
    hide FlightOk;
    assert CollectorOk(config, w, w.collectors[s.id]);
    assert FlightOk(config, w.now, w.flights[id]);
    PutsObjects(config, w.now, w.flights[id]);
  }

  lemma DeleteSparesShown(config: Config, w: World, s: Step, k: Key)
    requires Enabled(config, w, s) && s.Delete? && ShownOk(config, w) && CollectorsOk(config, w) && CoverageOk(w) && SeenOk(w)
    requires k in w.shown
    ensures s.key !in w.shown[k].put
  {
    hide Publishable, KeysOf, Populate;
    var c := w.collectors[s.id];
    assert CollectorOk(config, w, c);
    ShowsObjects(config, w, k);
    assert ShowsOk(config, w, k, w.shown[k]);
    if k.scope == c.scope { assert Covered(c, k, w.shown[k]); }
  }

  lemma NextFlightHeld(config: Config, w: World, s: Step, id: nat)
    requires Enabled(config, w, s) && FlightsOk(config, w) && CollectorsOk(config, w) && HeldOk(w) && Apart(w)
    requires id in Next(config, w, s).flights
    ensures Holds(Next(config, w, s).store, Next(config, w, s).flights[id].put)
  {
    hide ObjectOk, ManifestReady, Startable, LoadManifest, Found, Populate, FlightOk, CollectorOk, Apart, Objects;
    if !(s.Begin? && id == s.id) {
      var f := w.flights[id];
      assert FlightOk(config, w.now, f);
      PutsObjects(config, w.now, f);
      if s.Delete? { DeleteSparesFlight(config, w, s, id); }
      HoldsLater(config, w, s, f.put, f.pub.scope);
    }
  }

  lemma NextShownHeld(config: Config, w: World, s: Step, k: Key)
    requires Enabled(config, w, s) && WorldOk(config, w) && HeldOk(w) && SeenOk(w) && k in Next(config, w, s).shown
    ensures Holds(Next(config, w, s).store, Next(config, w, s).shown[k].put)
  {
    hide ObjectOk, ManifestReady, Startable, LoadManifest, Found, Populate, FlightOk, CollectorOk, Objects, ShowsOk, StoreOk, Covered;
    if s.PutPointer? && k !in w.shown {
      var f := w.flights[s.id];
      assert FlightOk(config, w.now, f);
      PutsObjects(config, w.now, f);
      HoldsLater(config, w, s, f.put, f.pub.scope);
    } else {
      ShowsObjects(config, w, k);
      if s.Delete? { DeleteSparesShown(config, w, s, k); }
      HoldsLater(config, w, s, w.shown[k].put, k.scope);
    }
  }

  lemma {:induction false} QuietRunOk(config: Config, states: seq<World>, steps: seq<Step>, i: nat)
    requires Run(config, states, steps) && Quiet(states) && i < |states|
    ensures HeldOk(states[i]) && SeenOk(states[i])
  {
    hide Enabled, Next, WorldOk, Holds, Apart;
    if i > 0 {
      QuietRunOk(config, states, steps, i - 1);
      RunOk(config, states, steps, i - 1);
      var w, s := states[i - 1], steps[i - 1];
      assert Enabled(config, w, s) && states[i - 1 + 1] == Next(config, w, s);
      Components(config, w);
      NextSeen(config, w, s);
      forall id | id in states[i].flights ensures Holds(states[i].store, states[i].flights[id].put) {
        NextFlightHeld(config, w, s, id);
      }
      forall k | k in states[i].shown ensures Holds(states[i].store, states[i].shown[k].put) {
        NextShownHeld(config, w, s, k);
      }
    }
  }

  lemma Components(config: Config, w: World)
    requires WorldOk(config, w)
    ensures StoreOk(w.store) && ShownOk(config, w) && FlightsOk(config, w) && CollectorsOk(config, w) && CoverageOk(w)
  {
  }

  /** When collections keep apart from publishes, every pointer that can be seen, at any time and after any number of
      abandoned publishes, leads to exactly the files of the publish that put it there. */
  lemma EveryPointerRestores(config: Config, states: seq<World>, steps: seq<Step>, i: nat, k: Key)
    requires Run(config, states, steps) && Quiet(states)
    requires i < |states| && k in states[i].store && k.PointerKey?
    ensures k in states[i].shown && PointerKeyOf(states[i].shown[k].pub) == k
    ensures Materialized(config, states[i].store, k.scope, k.snapshot) == Ok(FilesOf(EntriesOf(states[i].shown[k].pub.objects)))
  {
    hide Run, Quiet, Materialized, Publishable, StoreOk, FlightsOk, CollectorsOk, CoverageOk, KeysOf, FilesOf;
    RunOk(config, states, steps, i);
    QuietRunOk(config, states, steps, i);
    var w := states[i];
    assert ShowsOk(config, w, k, w.shown[k]);
    MaterializesPublished(config, w.store, w.shown[k].pub);
  }

  // ---------- One publish per pointer ----------

  /** Step `i` makes the snapshot of `k` visible. */
  ghost predicate Publishes(w: World, s: Step, k: Key) {
    s.PutPointer? && s.id in w.flights && PointerKeyOf(w.flights[s.id].pub) == k && k !in w.store
  }

  lemma StaysShown(config: Config, w: World, s: Step, k: Key)
    requires Enabled(config, w, s) && MarksObjects(w) && k.PointerKey? && s != Remove(k)
    requires k in w.store
    ensures k in Next(config, w, s).store && Next(config, w, s).store[k] == w.store[k]
  {
    hide Entries, LoadManifest, MarksObjects;
    if !s.PutPointer? && !s.Remove? { PointersStay(config, w, s, k); }
  }

  lemma {:induction false} RunMarks(config: Config, states: seq<World>, steps: seq<Step>, i: nat)
    requires Run(config, states, steps) && i < |states|
    ensures MarksObjects(states[i])
  {
    hide Enabled, Next;
    if i > 0 {
      RunMarks(config, states, steps, i - 1);
      NextMarks(config, states[i - 1], steps[i - 1]);
    }
  }

  /** A pointer stays as it is until it is removed. */
  lemma {:induction false} ShownUntilRemoved(
    config: Config, states: seq<World>, steps: seq<Step>, i: nat, j: nat, k: Key)
    requires Run(config, states, steps) && i <= j < |states|
    requires k.PointerKey? && k in states[i].store
    requires forall m | i <= m < j :: steps[m] != Remove(k)
    ensures k in states[j].store && states[j].store[k] == states[i].store[k]
    decreases j - i
  {
    hide Enabled, Next, MarksObjects;
    if i < j {
      ShownUntilRemoved(config, states, steps, i, j - 1, k);
      RunMarks(config, states, steps, j - 1);
      StaysShown(config, states[j - 1], steps[j - 1], k);
    }
  }

  /** Between two successful publishes of one snapshot its reference was removed. */
  lemma OnePublishPerReference(config: Config, states: seq<World>, steps: seq<Step>, i: nat, j: nat, k: Key)
    returns (m: nat)
    requires Run(config, states, steps) && i < j < |steps|
    requires Publishes(states[i], steps[i], k) && Publishes(states[j], steps[j], k)
    ensures i < m < j && steps[m] == Remove(k)
  {
    hide Entries, LoadManifest;
    if forall m | i < m < j :: steps[m] != Remove(k) {
      assert k in states[i + 1].store;
      ShownUntilRemoved(config, states, steps, i + 1, j, k);
      assert false;
    } else {
      m :| i < m < j && steps[m] == Remove(k);
    }
  }

  // ---------- Collections that overlap publishes and each other ----------

  /** The modification time reaches far enough into the publish. */
  predicate Kept(config: Config, started: real, modified: real) {
    started + 2.0 * config.limits.timeout <= modified + config.limits.grace
  }

  /** No collection that still has time has marked an earlier blob of this key: whatever marks there are, are of the blob
      now stored. */
  predicate Unmarked(config: Config, w: World, key: Key)
    requires key in w.store
  {
    forall id | id in w.collectors && InTime(config, w, w.collectors[id].started) && key in w.collectors[id].doomed ::
      w.collectors[id].cutoff.Some? && w.store[key].modified <= w.collectors[id].cutoff.value
  }

  ghost predicate Guarded(config: Config, w: World, started: real, put: map<Key, real>, key: Key) {
    && key in put && Kept(config, started, put[key]) && key.ObjectKey?
    && key in w.store && w.store[key].modified == put[key] && Unmarked(config, w, key)
  }

  /** The publish has stored `key`, late enough, and no mark awaits it. */
  ghost predicate Secured(config: Config, w: World, id: nat, key: Key) {
    id in w.flights && Guarded(config, w, w.flights[id].started, w.flights[id].put, key)
  }

  ghost predicate SecuredShown(config: Config, w: World, k: Key, key: Key) {
    k in w.shown && Guarded(config, w, w.shown[k].started, w.shown[k].put, key)
  }

  lemma NextUnmarked(config: Config, w: World, s: Step, key: Key)
    requires Enabled(config, w, s) && CollectorsOk(config, w) && key in w.store && Unmarked(config, w, key)
    requires key in Next(config, w, s).store && Next(config, w, s).store[key] == w.store[key]
    ensures Unmarked(config, Next(config, w, s), key)
  {
    hide ObjectOk, ManifestReady, Startable, LoadManifest, Found, Populate;
    var n := Next(config, w, s);
    ClockAdvances(config, w, s);
    forall id | id in n.collectors && InTime(config, n, n.collectors[id].started) && key in n.collectors[id].doomed
      ensures n.collectors[id].cutoff.Some? && n.store[key].modified <= n.collectors[id].cutoff.value
    {
      if id in w.collectors { assert CollectorOk(config, w, w.collectors[id]); }
    }
  }

  /** A collection in time deletes nothing that a publish in time has guarded. */
  lemma DeleteSparesGuardedFlight(config: Config, w: World, s: Step, id: nat)
    requires Enabled(config, w, s) && s.Delete? && config.limits.Valid() && CollectorsOk(config, w)
    requires id in w.flights && InTime(config, w, w.flights[id].started) && s.key in w.flights[id].put
    requires s.key in w.store && w.store[s.key].modified == w.flights[id].put[s.key] && Unmarked(config, w, s.key)
    ensures !Kept(config, w.flights[id].started, w.flights[id].put[s.key])
  {
    assert CollectorOk(config, w, w.collectors[s.id]);
  }

  lemma DeleteSparesGuardedShown(config: Config, w: World, s: Step, k: Key)
    requires Enabled(config, w, s) && s.Delete? && config.limits.Valid()
    requires ShownOk(config, w) && CollectorsOk(config, w) && CoverageOk(w)
    requires k in w.shown && s.key in w.shown[k].put
    requires s.key in w.store && w.store[s.key].modified == w.shown[k].put[s.key] && Unmarked(config, w, s.key)
    ensures !Kept(config, w.shown[k].started, w.shown[k].put[s.key])
  {
    hide Publishable, KeysOf, Populate;
    var c := w.collectors[s.id];
    assert CollectorOk(config, w, c);
    ShowsObjects(config, w, k);
    assert ShowsOk(config, w, k, w.shown[k]);
    assert Covered(c, k, w.shown[k]);
  }

  lemma GuardedLater(config: Config, w: World, s: Step, started: real, put: map<Key, real>, key: Key)
    requires Enabled(config, w, s) && CollectorsOk(config, w) && Guarded(config, w, started, put, key)
    requires s.Delete? ==> s.key != key
    ensures Guarded(config, Next(config, w, s), started, put, key)
    ensures Next(config, w, s).store[key] == w.store[key]
  {
    hide Enabled, Next, CollectorsOk, Unmarked;
    ObjectStays(config, w, s, key);
    NextUnmarked(config, w, s, key);
  }

  /** What a publish in flight keeps: its beginning, and what it has recorded of a blob that is stored. */
  lemma FlightKeeps(config: Config, w: World, s: Step, id: nat, key: Key)
    requires Enabled(config, w, s) && id in w.flights && id in Next(config, w, s).flights
    requires key in w.flights[id].put && key in w.store && w.store[key].modified == w.flights[id].put[key]
    ensures var f, g := w.flights[id], Next(config, w, s).flights[id];
            g.pub == f.pub && g.started == f.started && key in g.put && g.put[key] == f.put[key]
  {
    hide ObjectOk, ManifestReady, Startable, LoadManifest, Found, Populate;
  }

  lemma NextSecured(config: Config, w: World, s: Step, id: nat, key: Key)
    requires Enabled(config, w, s) && config.limits.Valid() && CollectorsOk(config, w)
    requires Secured(config, w, id, key) && id in Next(config, w, s).flights
    requires InTime(config, Next(config, w, s), w.flights[id].started)
    ensures Secured(config, Next(config, w, s), id, key)
    ensures var f, g := w.flights[id], Next(config, w, s).flights[id]; g.pub == f.pub && g.started == f.started
  {
    hide Enabled, Next, CollectorsOk, Unmarked;
    ClockAdvances(config, w, s);
    if s.Delete? && s.key == key { DeleteSparesGuardedFlight(config, w, s, id); }
    FlightKeeps(config, w, s, id, key);
    GuardedLater(config, w, s, w.flights[id].started, w.flights[id].put, key);
  }

  lemma NextSecuredShown(config: Config, w: World, s: Step, k: Key, key: Key)
    requires Enabled(config, w, s) && config.limits.Valid() && WorldOk(config, w)
    requires SecuredShown(config, w, k, key) && k.PointerKey? && s != Remove(k)
    ensures SecuredShown(config, Next(config, w, s), k, key) && Next(config, w, s).shown[k] == w.shown[k]
  {
    hide Enabled, Next, CollectorsOk, Unmarked, CoverageOk, FlightsOk, StoreOk;
    EntryStays(config, w, s, k);
    if s.Delete? && s.key == key { DeleteSparesGuardedShown(config, w, s, k); }
    GuardedLater(config, w, s, w.shown[k].started, w.shown[k].put, key);
  }

  lemma EntryStays(config: Config, w: World, s: Step, k: Key)
    requires Enabled(config, w, s) && ShownOk(config, w) && k in w.shown && s != Remove(k)
    ensures k in Next(config, w, s).shown && Next(config, w, s).shown[k] == w.shown[k]
  {
    hide ObjectOk, ManifestReady, Startable, LoadManifest, Found, Populate, Publishable, KeysOf, ShowsOk;
  }

  /** Publish `id` goes on from state `i` to state `j`. */
  ghost predicate Flying(states: seq<World>, id: nat, i: nat, j: nat) {
    i <= j < |states| && forall m | i <= m <= j :: id in states[m].flights
  }

  lemma {:induction false} Earlier(config: Config, states: seq<World>, steps: seq<Step>, i: nat, j: nat)
    requires Run(config, states, steps) && i <= j < |states|
    ensures states[i].now <= states[j].now
    decreases j
  {
    hide Enabled, Next;
    if i < j {
      Earlier(config, states, steps, i, j - 1);
      assert Enabled(config, states[j - 1], steps[j - 1]) && states[j - 1 + 1] == Next(config, states[j - 1], steps[j - 1]);
      ClockAdvances(config, states[j - 1], steps[j - 1]);
    }
  }

  /** However many collections there are, a blob that was put late enough, with no mark awaiting it, is stored for as long
      as the publish that put it is under way and in time. */
  lemma {:induction false} KeptInFlight(
    config: Config, states: seq<World>, steps: seq<Step>, id: nat, i: nat, j: nat, key: Key)
    requires config.limits.Valid() && Run(config, states, steps) && Flying(states, id, i, j)
    requires Secured(config, states[i], id, key) && InTime(config, states[j], states[i].flights[id].started)
    ensures Secured(config, states[j], id, key) && key in states[j].store
    ensures states[j].flights[id].pub == states[i].flights[id].pub && states[j].flights[id].started == states[i].flights[id].started
    decreases j
  {
    hide Enabled, Next, Unmarked, StoreOk, ShownOk, FlightsOk, CollectorsOk, CoverageOk;
    if i < j {
      Earlier(config, states, steps, j - 1, j);
      KeptInFlight(config, states, steps, id, i, j - 1, key);
      RunOk(config, states, steps, j - 1);
      assert Enabled(config, states[j - 1], steps[j - 1]) && states[j - 1 + 1] == Next(config, states[j - 1], steps[j - 1]);
      assert id in states[j].flights;
      NextSecured(config, states[j - 1], steps[j - 1], id, key);
    }
  }

  lemma {:induction false} SecuredStays(config: Config, states: seq<World>, steps: seq<Step>, i: nat, j: nat, k: Key, key: Key)
    requires config.limits.Valid() && Run(config, states, steps) && i <= j < |states|
    requires SecuredShown(config, states[i], k, key) && k.PointerKey? && forall m | i <= m < j :: steps[m] != Remove(k)
    ensures SecuredShown(config, states[j], k, key) && states[j].shown[k] == states[i].shown[k]
    decreases j
  {
    hide Enabled, Next, SecuredShown, WorldOk;
    if i < j {
      SecuredStays(config, states, steps, i, j - 1, k, key);
      RunOk(config, states, steps, j - 1);
      assert Enabled(config, states[j - 1], steps[j - 1]) && states[j - 1 + 1] == Next(config, states[j - 1], steps[j - 1]);
      ShownIsShown(config, states[j - 1], k, key);
      NextSecuredShown(config, states[j - 1], steps[j - 1], k, key);
    }
  }

  lemma ShownIsShown(config: Config, w: World, k: Key, key: Key)
    requires SecuredShown(config, w, k, key)
    ensures k in w.shown
  {
  }

  lemma PointerPut(config: Config, w: World, s: Step, k: Key, key: Key)
    requires Enabled(config, w, s) && Publishes(w, s, k) && CollectorsOk(config, w) && Secured(config, w, s.id, key)
    ensures SecuredShown(config, Next(config, w, s), k, key)
    ensures Next(config, w, s).shown[k].pub == w.flights[s.id].pub
  {
    GuardedLater(config, w, s, w.flights[s.id].started, w.flights[s.id].put, key);
    hide Guarded, CollectorsOk;
  }

  /** Publish `id`, under way since state `i`, makes its snapshot visible in step `p`, and the reference is still there in
      state `j`. */
  ghost predicate ShowsUntil(states: seq<World>, steps: seq<Step>, id: nat, i: nat, p: nat, j: nat, k: Key) {
    && Flying(states, id, i, p) && p < |steps| && p < j < |states| && j <= |steps|
    && steps[p] == PutPointer(id) && Publishes(states[p], steps[p], k)
    && forall m | p < m < j :: steps[m] != Remove(k)
  }

  /** And from then on for as long as the snapshot that it makes visible is referenced. */
  lemma KeptWhileShown(
    config: Config, states: seq<World>, steps: seq<Step>, id: nat, i: nat, p: nat, j: nat, key: Key, k: Key)
    requires config.limits.Valid() && Run(config, states, steps) && ShowsUntil(states, steps, id, i, p, j, k)
    requires Secured(config, states[i], id, key)
    ensures k in states[j].shown && states[j].shown[k].pub == states[i].flights[id].pub
    ensures key in states[j].shown[k].put && key in states[j].store
  {
    PublisherInTime(config, states, steps, id, i, p, key);
    KeptInFlight(config, states, steps, id, i, p, key);
    RunOk(config, states, steps, p);
    assert Enabled(config, states[p], steps[p]) && states[p + 1] == Next(config, states[p], steps[p]);
    hide Run, Enabled, Next, Unmarked, StoreOk, ShownOk, FlightsOk, CollectorsOk, CoverageOk;
    PointerPut(config, states[p], steps[p], k, key);
    SecuredStays(config, states, steps, p + 1, j, k, key);
  }

  /** A publish keeps its start for as long as it is under way. */
  lemma {:induction false} SameStart(config: Config, states: seq<World>, steps: seq<Step>, id: nat, i: nat, j: nat)
    requires Run(config, states, steps) && Flying(states, id, i, j)
    ensures states[j].flights[id].started == states[i].flights[id].started && states[j].flights[id].pub == states[i].flights[id].pub
    decreases j
  {
    hide Enabled, Next;
    if i < j {
      SameStart(config, states, steps, id, i, j - 1);
      assert Enabled(config, states[j - 1], steps[j - 1]) && states[j - 1 + 1] == Next(config, states[j - 1], steps[j - 1]);
      assert id in states[j].flights;
      StartStays(config, states[j - 1], steps[j - 1], id);
    }
  }

  lemma StartStays(config: Config, w: World, s: Step, id: nat)
    requires Enabled(config, w, s) && id in w.flights && id in Next(config, w, s).flights
    ensures Next(config, w, s).flights[id].started == w.flights[id].started && Next(config, w, s).flights[id].pub == w.flights[id].pub
  {
    hide ObjectOk, ManifestReady, Startable, LoadManifest, Found, Populate;
  }

  lemma PublisherInTime(config: Config, states: seq<World>, steps: seq<Step>, id: nat, i: nat, p: nat, key: Key)
    requires Run(config, states, steps) && Flying(states, id, i, p) && p < |steps| && steps[p] == PutPointer(id)
    ensures InTime(config, states[p], states[i].flights[id].started)
  {
    hide Next;
    SameStart(config, states, steps, id, i, p);
    assert Enabled(config, states[p], steps[p]);
  }

  /** If each blob of a publish was put that way, at whatever time, the snapshot restores for as long as it is referenced. */
  lemma KeptSnapshotRestores(
    config: Config, states: seq<World>, steps: seq<Step>, id: nat, at: map<Key, nat>, p: nat, j: nat, k: Key)
    requires config.limits.Valid() && Run(config, states, steps) && ShowsUntil(states, steps, id, p, p, j, k)
    requires forall key | key in states[p].flights[id].put ::
               key in at && Flying(states, id, at[key], p) && Secured(config, states[at[key]], id, key)
    ensures k in states[j].shown && states[j].shown[k].pub == states[p].flights[id].pub
    ensures Materialized(config, states[j].store, k.scope, k.snapshot) == Ok(FilesOf(EntriesOf(states[p].flights[id].pub.objects)))
  {
    ShownUntil(config, states, steps, id, p, j, k);
    RunOk(config, states, steps, j);
    var w := states[j];
    assert ShowsOk(config, w, k, w.shown[k]);
    hide Run, Secured, Materialized, Publishable, StoreOk, FlightsOk, CollectorsOk, CoverageOk, KeysOf, FilesOf;
    forall key | key in w.shown[k].put ensures key in w.store {
      KeptWhileShown(config, states, steps, id, at[key], p, j, key, k);
    }
    MaterializesPublished(config, w.store, w.shown[k].pub);
  }

  lemma {:induction false} ShownUntil(config: Config, states: seq<World>, steps: seq<Step>, id: nat, p: nat, j: nat, k: Key)
    requires Run(config, states, steps) && ShowsUntil(states, steps, id, p, p, j, k)
    ensures k.PointerKey? && k in states[j].shown
    ensures states[j].shown[k].pub == states[p].flights[id].pub && states[j].shown[k].put == states[p].flights[id].put
    decreases j
  {
    hide Enabled, Next, Flying;
    assert Enabled(config, states[j - 1], steps[j - 1]) && states[j - 1 + 1] == Next(config, states[j - 1], steps[j - 1]);
    if j == p + 1 {
      PointerShown(config, states[p], steps[p], k);
    } else {
      ShownUntil(config, states, steps, id, p, j - 1, k);
      RunOk(config, states, steps, j - 1);
      Components(config, states[j - 1]);
      EntryStays(config, states[j - 1], steps[j - 1], k);
    }
  }

  lemma PointerShown(config: Config, w: World, s: Step, k: Key)
    requires Enabled(config, w, s) && Publishes(w, s, k)
    ensures var n, f := Next(config, w, s), w.flights[s.id];
            k.PointerKey? && k in n.shown && n.shown[k].pub == f.pub && n.shown[k].put == f.put
  {
  }

  lemma CreatedIsSecured(config: Config, w: World, s: Step, key: Key)
    requires 2.0 * config.limits.timeout <= config.limits.grace
    requires Enabled(config, w, s) && (s.PutObject? || s.PutManifest?)
    requires key !in w.store && key in Next(config, w, s).store && Unmarked(config, Next(config, w, s), key)
    ensures Secured(config, Next(config, w, s), s.id, key)
  {
    hide ObjectOk, ManifestReady, Populate, Unmarked;
  }

  lemma CreatedInRun(config: Config, states: seq<World>, steps: seq<Step>, i: nat, key: Key)
    requires 2.0 * config.limits.timeout <= config.limits.grace && Run(config, states, steps) && i < |steps|
    requires (steps[i].PutObject? || steps[i].PutManifest?) && key !in states[i].store && key in states[i + 1].store
    requires Unmarked(config, states[i + 1], key)
    ensures Secured(config, states[i + 1], steps[i].id, key)
  {
    hide Enabled, Next, Unmarked;
    assert Enabled(config, states[i], steps[i]) && states[i + 1] == Next(config, states[i], steps[i]);
    CreatedIsSecured(config, states[i], steps[i], key);
  }

  /** Collection is safe for fresh blobs: with a grace period of two timeouts, as by default, a blob that a publish creates
      while no collection with time left has marked its key is stored as long as that publish is under way and in time,
      and as long as the snapshot it then makes visible is referenced, whatever collections there are. */
  lemma CreatedStays(config: Config, states: seq<World>, steps: seq<Step>, i: nat, p: nat, j: nat, key: Key, k: Key)
    requires config.limits.Valid() && 2.0 * config.limits.timeout <= config.limits.grace
    requires Run(config, states, steps) && i < |steps| && i < j < |states|
    requires (steps[i].PutObject? || steps[i].PutManifest?) && key !in states[i].store && key in states[i + 1].store
    requires Unmarked(config, states[i + 1], key)
    ensures steps[i].id in states[i + 1].flights
    ensures Flying(states, steps[i].id, i + 1, j) && InTime(config, states[j], states[i + 1].flights[steps[i].id].started) ==>
              key in states[j].store
    ensures ShowsUntil(states, steps, steps[i].id, i + 1, p, j, k) ==>
              k in states[j].shown && states[j].shown[k].pub == states[i + 1].flights[steps[i].id].pub && key in states[j].store
    ensures 2.0 * DefaultLimits().timeout <= DefaultLimits().grace
  {
    hide Run, Enabled, Next, Unmarked, Guarded;
    CreatedInRun(config, states, steps, i, key);
    var id := steps[i].id;
    if Flying(states, id, i + 1, j) && InTime(config, states[j], states[i + 1].flights[id].started) {
      KeptInFlight(config, states, steps, id, i + 1, j, key);
    }
    if ShowsUntil(states, steps, id, i + 1, p, j, k) {
      KeptWhileShown(config, states, steps, id, i + 1, p, j, key, k);
    }
  }
}
