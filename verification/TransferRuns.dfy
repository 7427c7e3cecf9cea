/** Grant publishers, claimers and garbage collectors at work on one snapshot's transfer records, with the snapshot
    being published and its reference removed, in any interleaving and with any of them stopping at any point. */
module TransferRuns {
  import opened Outcomes
  import opened Artifacts
  import opened Transfers

  /** How far an operation has come since it loaded the manifest. */
  datatype Stage =
    | Granting                   // next: look for the grant pointer
    | Rereading                  // next: read the existing grant
    | Sealing                    // next: put the grant
    | Pointing                   // next: put the grant pointer
    | Comparing                  // next: read the grant that was there first
    | Claiming(target: Target)   // next: read the grant
    | Placing(target: Target)    // next: put the claim
    | Verifying(target: Target)  // next: open the claim that was there first

  datatype Task = Task(manifest: Manifest, started: real, stage: Stage)

  /** A collection: whether it has listed the references, whether this snapshot's was among them, and which of this
      snapshot's records it has found collectable. */
  datatype Collector = Collector(started: real, listed: bool, referenced: bool, cutoff: Option<real>, doomed: set<Slot>)

  /** `reference` is the manifest that the snapshot's pointer leads to, if there is one. */
  datatype World = World(
    now: real, reference: Option<Manifest>, records: Records, tasks: map<nat, Task>, collectors: map<nat, Collector>)

  function Empty(): World {
    World(0.0, None, map[], map[], map[])
  }

  datatype Step =
    | Wait(until: real)
    | Publish(manifest: Manifest)
    | Remove
    | Begin(id: nat, target: Option<Target>)
    | Advance(id: nat, modified: real)
    | Stop(id: nat)
    | Collect(id: nat)
    | List(id: nat)
    | Cut(id: nat)
    | Mark(id: nat, slot: Slot)
    | Delete(id: nat, slot: Slot)
    | Finish(id: nat)

  /** An operation acts only before its deadline. */
  predicate InTime(limits: Limits, w: World, started: real) {
    w.now < started + limits.timeout
  }

  predicate Collecting(limits: Limits, w: World, id: nat) {
    id in w.collectors && InTime(limits, w, w.collectors[id].started)
  }

  predicate Enabled(limits: Limits, w: World, s: Step) {
    match s
    case Wait(until) => w.now <= until
    case Publish(_) => w.reference.None?
    case Remove => true
    case Begin(id, _) => id !in w.tasks && w.reference.Some?
    case Advance(id, modified) =>
      id in w.tasks && InTime(limits, w, w.tasks[id].started) && w.tasks[id].started <= modified <= w.now
    case Stop(id) => id in w.tasks
    case Collect(id) => id !in w.collectors
    case List(id) => Collecting(limits, w, id) && !w.collectors[id].listed
    case Cut(id) => Collecting(limits, w, id) && w.collectors[id].listed && w.collectors[id].cutoff.None?
    case Mark(id, slot) =>
      && Collecting(limits, w, id) && w.collectors[id].cutoff.Some? && !w.collectors[id].referenced
      && slot in w.records && w.records[slot].modified <= w.collectors[id].cutoff.value
    case Delete(id, slot) => Collecting(limits, w, id) && slot in w.collectors[id].doomed
    case Finish(id) => id in w.collectors
  }

  /** The stage after this one, or none if the operation ends. */
  function NextStage(records: Records, t: Task): Option<Stage> {
    match t.stage
    case Granting =>
      if PointerSlot in records then Some(Rereading)
      else if t.manifest.origin.mode != StopAndMove then None
      else Some(Sealing)
    case Rereading => None
    case Sealing => Some(Pointing)
    case Pointing => if PointerSlot in records then Some(Comparing) else None
    case Comparing => None
    case Claiming(target) =>
      var grant := ReadGrant(records, t.manifest);
      if grant.Ok? && Eligible(grant.value, target) then Some(Placing(target)) else None
    case Placing(target) => if ClaimSlot in records then Some(Verifying(target)) else None
    case Verifying(_) => None
  }

  function NextRecords(records: Records, t: Task, modified: real): Records {
    match t.stage
    case Sealing => PutIfAbsent(records, GrantSlot, GrantEnvelope(GrantOf(t.manifest)), modified)
    case Pointing => PutIfAbsent(records, PointerSlot, GrantPointer(t.manifest.snapshot, GrantOf(t.manifest)), modified)
    case Placing(target) => PutIfAbsent(records, ClaimSlot, ClaimEnvelope(ClaimOf(GrantOf(t.manifest), target)), modified)
    case _ => records
  }

  function Next(limits: Limits, w: World, s: Step): World
    requires Enabled(limits, w, s)
  {
    match s
    case Wait(until) => w.(now := until)
    case Publish(manifest) => w.(reference := Some(manifest))
    case Remove => w.(reference := None)
    case Begin(id, target) =>
      var stage := if target.Some? then Claiming(target.value) else Granting;
      w.(tasks := w.tasks[id := Task(w.reference.value, w.now, stage)])
    case Advance(id, modified) =>
      var t := w.tasks[id];
      var stage := NextStage(w.records, t);
      w.(records := NextRecords(w.records, t, modified),
         tasks := if stage.Some? then w.tasks[id := t.(stage := stage.value)] else w.tasks - {id})
    case Stop(id) => w.(tasks := w.tasks - {id})
    case Collect(id) => w.(collectors := w.collectors[id := Collector(w.now, false, false, None, {})])
    case List(id) =>
      w.(collectors := w.collectors[id := w.collectors[id].(listed := true, referenced := w.reference.Some?)])
    case Cut(id) => w.(collectors := w.collectors[id := w.collectors[id].(cutoff := Some(w.now - limits.grace))])
    case Mark(id, slot) =>
      w.(collectors := w.collectors[id := w.collectors[id].(doomed := w.collectors[id].doomed + {slot})])
    case Delete(id, slot) =>
      w.(records := w.records - {slot},
         collectors := w.collectors[id := w.collectors[id].(doomed := w.collectors[id].doomed - {slot})])
    case Finish(id) => w.(collectors := w.collectors - {id})
  }

  /** The claim that a step returns, if it completes one. */
  function Outcome(w: World, s: Step): Option<Claim> {
    if !s.Advance? || s.id !in w.tasks then None
    else
      var t := w.tasks[s.id];
      match t.stage
      case Placing(target) => if ClaimSlot in w.records then None else Some(ClaimOf(GrantOf(t.manifest), target))
      case Verifying(target) =>
        if VerifyClaim(w.records, ClaimOf(GrantOf(t.manifest), target)).Ok? then Some(ClaimOf(GrantOf(t.manifest), target))
        else None
      case _ => None
  }

  /** The grant that a step reports, if it completes one. */
  function GrantOutcome(w: World, s: Step): Option<Grant> {
    if !s.Advance? || s.id !in w.tasks then None
    else
      var t := w.tasks[s.id];
      match t.stage
      case Rereading => if ReadGrant(w.records, t.manifest).Ok? then Some(ReadGrant(w.records, t.manifest).value) else None
      case Pointing => if PointerSlot in w.records then None else Some(GrantOf(t.manifest))
      case Comparing => if ReadGrant(w.records, t.manifest) == Ok(GrantOf(t.manifest)) then Some(GrantOf(t.manifest)) else None
      case _ => None
  }

  ghost predicate Run(limits: Limits, states: seq<World>, steps: seq<Step>) {
    && |states| == |steps| + 1
    && states[0] == Empty()
    && forall i | 0 <= i < |steps| :: Enabled(limits, states[i], steps[i]) && states[i + 1] == Next(limits, states[i], steps[i])
  }

  ghost predicate Sane(limits: Limits, w: World) {
    && (forall id | id in w.tasks :: w.tasks[id].started <= w.now)
    && (forall id | id in w.collectors :: CollectorOk(limits, w.now, w.collectors[id]))
  }

  predicate CollectorOk(limits: Limits, now: real, c: Collector) {
    && c.started <= now
    && (!c.listed ==> c.cutoff.None?)
    && (c.cutoff.None? || c.referenced ==> c.doomed == {})
    && (c.cutoff.Some? ==> c.cutoff.value + limits.grace < c.started + limits.timeout)
  }

  lemma {:induction false} RunSane(limits: Limits, states: seq<World>, steps: seq<Step>, i: nat)
    requires Run(limits, states, steps) && i < |states|
    ensures Sane(limits, states[i])
  {
    hide Enabled, Next, Sane;
    if i == 0 {
      EmptySane(limits);
    } else {
      RunSane(limits, states, steps, i - 1);
      NextSane(limits, states[i - 1], steps[i - 1]);
    }
  }

  lemma EmptySane(limits: Limits)
    ensures Sane(limits, Empty())
  {
  }

  lemma NextSane(limits: Limits, w: World, s: Step)
    requires Enabled(limits, w, s) && Sane(limits, w)
    ensures Sane(limits, Next(limits, w, s))
  {
    hide ReadGrant, NextStage, NextRecords;
  }

  // ---------- Terms ----------

  /** Step `a` publishes the snapshot and its reference is not removed before state `b`. */
  ghost predicate Term(steps: seq<Step>, a: nat, b: nat) {
    a < b <= |steps| && steps[a].Publish? && forall i | a <= i < b :: !steps[i].Remove?
  }

  /** No trace of an earlier term: no records, no operation under way, nothing about to be deleted. */
  ghost predicate Untouched(w: World) {
    w.records == map[] && w.tasks == map[] && forall id | id in w.collectors :: w.collectors[id].doomed == {}
  }

  /** The operation may yet put a record there. */
  predicate MayPut(t: Task, slot: Slot) {
    match slot
    case GrantSlot => t.stage.Granting? || t.stage.Sealing?
    case PointerSlot => t.stage.Granting? || t.stage.Sealing? || t.stage.Pointing?
    case ClaimSlot =>
      || t.stage.Placing?
      || (t.stage.Claiming? && t.manifest.origin.mode == StopAndMove && Eligible(GrantOf(t.manifest), t.stage.target))
  }

  /** A collection that has listed the references without this snapshot's, and still has time to act on it. */
  predicate Missed(limits: Limits, w: World, c: Collector) {
    c.listed && !c.referenced && InTime(limits, w, c.started)
  }

  /** A record of that time is too young for the collection: it is past the cutoff, or will be past any cutoff that the
      collection still has the time to take. */
  predicate Spares(limits: Limits, c: Collector, modified: real) {
    if c.cutoff.Some? then c.cutoff.value < modified
    else c.started + limits.timeout <= modified + limits.grace
  }

  predicate SafeFrom(limits: Limits, w: World, c: Collector, slot: Slot) {
    && slot !in c.doomed
    && if slot in w.records then Spares(limits, c, w.records[slot].modified)
       else forall id | id in w.tasks && InTime(limits, w, w.tasks[id].started) && MayPut(w.tasks[id], slot) ::
              Spares(limits, c, w.tasks[id].started)
  }

  /** No collection under way that has missed the reference can take the record there, nor one that an operation under
      way may yet put there. */
  predicate SlotSafe(limits: Limits, w: World, slot: Slot) {
    forall id | id in w.collectors && Missed(limits, w, w.collectors[id]) :: SafeFrom(limits, w, w.collectors[id], slot)
  }

  /** An operation that begins after a collection has started is out of its reach. */
  lemma NewIsSpared(limits: Limits, w: World, id: nat, modified: real)
    requires limits.Valid() && Sane(limits, w) && id in w.collectors && w.now <= modified
    ensures Spares(limits, w.collectors[id], modified)
  {
    assert CollectorOk(limits, w.now, w.collectors[id]);
  }

  lemma SafeRecordStays(limits: Limits, w: World, s: Step, slot: Slot)
    requires Enabled(limits, w, s) && Sane(limits, w) && SlotSafe(limits, w, slot) && slot in w.records
    ensures slot in Next(limits, w, s).records && Next(limits, w, s).records[slot] == w.records[slot]
  {
    hide ReadGrant, Eligible, NextStage;
    if s.Delete? {
      assert CollectorOk(limits, w.now, w.collectors[s.id]);
      assert SafeFrom(limits, w, w.collectors[s.id], slot);
    }
  }

  /** Whoever lists the references during a term does not miss this one. */
  lemma MissedBefore(limits: Limits, w: World, s: Step, id: nat)
    requires Enabled(limits, w, s) && w.reference.Some? && id in Next(limits, w, s).collectors
    requires Missed(limits, Next(limits, w, s), Next(limits, w, s).collectors[id])
    ensures id in w.collectors && Missed(limits, w, w.collectors[id])
    ensures var n, c := Next(limits, w, s).collectors[id], w.collectors[id];
            && n.started == c.started
            && (n.cutoff == c.cutoff || (s == Cut(id) && c.cutoff.None? && n.cutoff == Some(w.now - limits.grace)))
            && (n.doomed <= c.doomed || (s.Mark? && s.id == id && n.doomed == c.doomed + {s.slot}))
  {
    hide ReadGrant, NextStage, NextRecords;
  }

  lemma StillSpares(limits: Limits, w: World, s: Step, id: nat, modified: real)
    requires Enabled(limits, w, s) && w.reference.Some? && id in Next(limits, w, s).collectors
    requires Missed(limits, Next(limits, w, s), Next(limits, w, s).collectors[id])
    requires id in w.collectors && Spares(limits, w.collectors[id], modified)
    ensures Spares(limits, Next(limits, w, s).collectors[id], modified)
  {
    MissedBefore(limits, w, s, id);
    if s == Cut(id) { CutInTime(limits, w, id); }
  }

  lemma CutInTime(limits: Limits, w: World, id: nat)
    requires Enabled(limits, w, Cut(id))
    ensures id in w.collectors && InTime(limits, w, w.collectors[id].started)
  {
  }

  /** A task that may put a record after a step could do so before it, or has just begun. */
  lemma MayPutBefore(limits: Limits, w: World, s: Step, slot: Slot, id: nat)
    requires Enabled(limits, w, s) && id in Next(limits, w, s).tasks
    requires MayPut(Next(limits, w, s).tasks[id], slot) && InTime(limits, Next(limits, w, s), Next(limits, w, s).tasks[id].started)
    ensures var started := Next(limits, w, s).tasks[id].started;
            || started == w.now
            || (id in w.tasks && w.tasks[id].started == started && MayPut(w.tasks[id], slot) && InTime(limits, w, started))
  {
    hide Eligible, NextRecords;
  }

  /** A record that a step adds is put by a task that may put it. */
  lemma PutByTask(limits: Limits, w: World, s: Step, slot: Slot)
    requires Enabled(limits, w, s) && slot !in w.records && slot in Next(limits, w, s).records
    ensures s.Advance? && s.id in w.tasks && MayPut(w.tasks[s.id], slot) && InTime(limits, w, w.tasks[s.id].started)
    ensures Next(limits, w, s).records[slot].modified == s.modified && w.tasks[s.id].started <= s.modified
  {
    hide ReadGrant, Eligible, NextStage;
  }

  lemma NextSafeFrom(limits: Limits, w: World, s: Step, slot: Slot, id: nat)
    requires limits.Valid() && Enabled(limits, w, s) && w.reference.Some? && Sane(limits, w) && SlotSafe(limits, w, slot)
    requires id in Next(limits, w, s).collectors && Missed(limits, Next(limits, w, s), Next(limits, w, s).collectors[id])
    ensures SafeFrom(limits, Next(limits, w, s), Next(limits, w, s).collectors[id], slot)
  {
    hide ReadGrant, Eligible, NextStage, NextRecords, Spares, MayPut, Sane;
    MissedBefore(limits, w, s, id);
    var n, c := Next(limits, w, s), w.collectors[id];
    assert SafeFrom(limits, w, c, slot);
    if s.Mark? && s.id == id && s.slot == slot { MarkTooLate(limits, w, id, slot); }
    if slot in w.records {
      SafeRecordStays(limits, w, s, slot);
      StillSpares(limits, w, s, id, w.records[slot].modified);
    } else if slot in n.records {
      PutByTask(limits, w, s, slot);
      SparesLater(limits, c, w.tasks[s.id].started, s.modified);
      StillSpares(limits, w, s, id, s.modified);
    } else {
      forall t | t in n.tasks && InTime(limits, n, n.tasks[t].started) && MayPut(n.tasks[t], slot)
        ensures Spares(limits, n.collectors[id], n.tasks[t].started)
      {
        MayPutBefore(limits, w, s, slot, t);
        NewIsSpared(limits, w, id, w.now);
        StillSpares(limits, w, s, id, n.tasks[t].started);
      }
    }
  }

  lemma SparesLater(limits: Limits, c: Collector, modified: real, later: real)
    requires Spares(limits, c, modified) && modified <= later
    ensures Spares(limits, c, later)
  {
  }

  lemma MarkTooLate(limits: Limits, w: World, id: nat, slot: Slot)
    requires Enabled(limits, w, Mark(id, slot))
    ensures !SafeFrom(limits, w, w.collectors[id], slot)
  {
  }

  /** While the snapshot is referenced a safe slot stays safe, and its record stays. */
  lemma NextSafe(limits: Limits, w: World, s: Step, slot: Slot)
    requires limits.Valid() && Enabled(limits, w, s) && !s.Remove? && w.reference.Some?
    requires Sane(limits, w) && SlotSafe(limits, w, slot)
    ensures Next(limits, w, s).reference == w.reference && SlotSafe(limits, Next(limits, w, s), slot)
  {
    ReferenceStays(limits, w, s);
    hide Enabled, Next, SafeFrom, Missed, Sane;
    var n := Next(limits, w, s);
    forall id | id in n.collectors && Missed(limits, n, n.collectors[id])
      ensures SafeFrom(limits, n, n.collectors[id], slot)
    {
      NextSafeFrom(limits, w, s, slot, id);
    }
  }

  lemma ReferenceStays(limits: Limits, w: World, s: Step)
    requires Enabled(limits, w, s) && !s.Remove? && w.reference.Some?
    ensures Next(limits, w, s).reference == w.reference
  {
    hide ReadGrant, NextStage, NextRecords;
  }

  lemma PublishKeepsRest(limits: Limits, w: World, s: Step)
    requires Enabled(limits, w, s) && s.Publish?
    ensures Next(limits, w, s) == w.(reference := Some(s.manifest))
    ensures forall slot | SlotSafe(limits, w, slot) :: SlotSafe(limits, Next(limits, w, s), slot)
  {
  }

  lemma {:induction false} TermSafe(limits: Limits, states: seq<World>, steps: seq<Step>, a: nat, b: nat, slot: Slot)
    requires limits.Valid() && Run(limits, states, steps) && Term(steps, a, b) && SlotSafe(limits, states[a], slot)
    ensures states[b].reference == Some(steps[a].manifest) && SlotSafe(limits, states[b], slot)
    decreases b
  {
    hide Enabled, Next, SlotSafe;
    if b == a + 1 {
      PublishKeepsRest(limits, states[a], steps[a]);
    } else {
      TermSafe(limits, states, steps, a, b - 1, slot);
      RunSane(limits, states, steps, b - 1);
      NextSafe(limits, states[b - 1], steps[b - 1], slot);
    }
  }

  /** What is recorded in a slot that was safe when the term started stays for the rest of the term. */
  lemma {:induction false} RecordStays(
    limits: Limits, states: seq<World>, steps: seq<Step>, a: nat, i: nat, j: nat, slot: Slot)
    requires limits.Valid() && Run(limits, states, steps) && Term(steps, a, j) && SlotSafe(limits, states[a], slot)
    requires a < i <= j && slot in states[i].records
    ensures slot in states[j].records && states[j].records[slot] == states[i].records[slot]
    decreases j
  {
    hide Enabled, Next, SlotSafe, Sane;
    if i < j {
      RecordStays(limits, states, steps, a, i, j - 1, slot);
      TermSafe(limits, states, steps, a, j - 1, slot);
      RunSane(limits, states, steps, j - 1);
      SafeRecordStays(limits, states[j - 1], steps[j - 1], slot);
    }
  }

  lemma OutcomeRecorded(limits: Limits, w: World, s: Step, c: Claim)
    requires Enabled(limits, w, s) && Outcome(w, s) == Some(c)
    ensures var n := Next(limits, w, s); ClaimSlot in n.records && n.records[ClaimSlot].record == ClaimEnvelope(c)
    ensures ClaimSlot in w.records ==> w.records[ClaimSlot].record == ClaimEnvelope(c)
  {
  }

  /** One destination: in a term that starts with the claim slot safe, all successful claims are the same claim. */
  lemma OneDestination(
    limits: Limits, states: seq<World>, steps: seq<Step>, a: nat, i: nat, j: nat, c: Claim, d: Claim)
    requires limits.Valid() && Run(limits, states, steps) && a < i < j < |steps| && Term(steps, a, j)
    requires SlotSafe(limits, states[a], ClaimSlot)
    requires Outcome(states[i], steps[i]) == Some(c) && Outcome(states[j], steps[j]) == Some(d)
    ensures c == d
  {
    hide Next, Outcome, SlotSafe;
    OutcomeRecorded(limits, states[i], steps[i], c);
    RecordStays(limits, states, steps, a, i + 1, j, ClaimSlot);
    OutcomeRecorded(limits, states[j], steps[j], d);
  }

  /** A snapshot's first term needs no condition: nothing can be left from before it. */
  lemma {:induction false} FirstTermUntouched(limits: Limits, states: seq<World>, steps: seq<Step>, a: nat)
    requires Run(limits, states, steps) && a < |states|
    requires forall i | 0 <= i < a :: !steps[i].Publish?
    ensures Untouched(states[a]) && states[a].reference.None?
    ensures forall slot :: SlotSafe(limits, states[a], slot)
  {
    hide NextStage, NextRecords;
    if a > 0 {
      FirstTermUntouched(limits, states, steps, a - 1);
      assert Enabled(limits, states[a - 1], steps[a - 1]);
    }
    UntouchedIsSafe(limits, states[a]);
  }

  lemma UntouchedIsSafe(limits: Limits, w: World)
    requires Untouched(w)
    ensures forall slot :: SlotSafe(limits, w, slot)
  {
  }

  // ---------- What a claim says ----------

  /** An operation past the grant has seen a grant of its manifest that its target is eligible for. */
  ghost predicate TasksOk(w: World) {
    forall id | id in w.tasks && (w.tasks[id].stage.Placing? || w.tasks[id].stage.Verifying?) ::
      Eligible(GrantOf(w.tasks[id].manifest), w.tasks[id].stage.target)
      && w.tasks[id].manifest.origin.mode == StopAndMove
  }

  lemma {:induction false} RunTasksOk(limits: Limits, states: seq<World>, steps: seq<Step>, i: nat)
    requires Run(limits, states, steps) && i < |states|
    ensures TasksOk(states[i])
  {
    if i > 0 {
      RunTasksOk(limits, states, steps, i - 1);
      NextTasksOk(limits, states[i - 1], steps[i - 1]);
    }
  }

  lemma NextTasksOk(limits: Limits, w: World, s: Step)
    requires Enabled(limits, w, s) && TasksOk(w)
    ensures TasksOk(Next(limits, w, s))
  {
    hide Eligible, NextRecords;
  }

  /** A successful claim takes the stopped sandbox from the worker and assignment of its manifest to those of the target
      that asked, which are another worker and a later assignment. */
  lemma ClaimMovesForward(limits: Limits, states: seq<World>, steps: seq<Step>, i: nat, c: Claim)
    requires Run(limits, states, steps) && i < |steps| && Outcome(states[i], steps[i]) == Some(c)
    ensures c.destinationWorker != c.sourceWorker && c.destinationEpoch > c.sourceEpoch
    ensures var t := states[i].tasks[steps[i].id];
            && t.manifest.origin.mode == StopAndMove
            && (t.stage.Placing? || t.stage.Verifying?)
            && MayMove(t.manifest, t.stage.target) && Names(c, t.manifest, t.stage.target)
  {
    hide Next;
    RunTasksOk(limits, states, steps, i);
  }

  /** Two targets that both succeed in a term whose claim slot was safe at its start are one worker in one assignment. */
  lemma OneTarget(limits: Limits, states: seq<World>, steps: seq<Step>, a: nat, i: nat, j: nat)
    requires limits.Valid() && Run(limits, states, steps) && a < i < j < |steps| && Term(steps, a, j)
    requires SlotSafe(limits, states[a], ClaimSlot)
    requires Outcome(states[i], steps[i]).Some? && Outcome(states[j], steps[j]).Some?
    ensures var s, t := states[i].tasks[steps[i].id].stage.target, states[j].tasks[steps[j].id].stage.target;
            s.worker == t.worker && s.epoch == t.epoch
  {
    var c, d := Outcome(states[i], steps[i]).value, Outcome(states[j], steps[j]).value;
    hide Next, Run, SlotSafe, Term;
    ClaimMovesForward(limits, states, steps, i, c);
    ClaimMovesForward(limits, states, steps, j, d);
    OneDestination(limits, states, steps, a, i, j, c, d);
  }

  // ---------- Terms that nothing precedes ----------

  /** All that operations hold or have recorded is of the manifest that the reference leads to. */
  ghost predicate OfTerm(w: World, m: Manifest) {
    && w.reference == Some(m)
    && FreeFor(w.records, m)
    && (PointerSlot in w.records ==> ReadGrant(w.records, m) == Ok(GrantOf(m)))
    && (forall id | id in w.tasks :: TaskOfTerm(w.records, w.tasks[id], m))
  }

  ghost predicate TaskOfTerm(records: Records, t: Task, m: Manifest) {
    && t.manifest == m
    && (t.stage.Sealing? || t.stage.Pointing? || t.stage.Comparing? ==> m.origin.mode == StopAndMove)
    && (t.stage.Pointing? || t.stage.Comparing? ==> GrantSlot in records)
    && (t.stage.Rereading? || t.stage.Comparing? ==> PointerSlot in records)
    && (t.stage.Placing? || t.stage.Verifying? ==> ReadGrant(records, m) == Ok(GrantOf(m)))
  }

  lemma ReadGrantStays(before: Records, after: Records, m: Manifest)
    requires Extends(before, after) && ReadGrant(before, m).Ok?
    ensures ReadGrant(after, m) == ReadGrant(before, m)
  {
  }

  lemma NextTaskOfTerm(limits: Limits, w: World, s: Step, m: Manifest, id: nat)
    requires Enabled(limits, w, s) && OfTerm(w, m) && Extends(w.records, Next(limits, w, s).records)
    requires id in Next(limits, w, s).tasks
    ensures TaskOfTerm(Next(limits, w, s).records, Next(limits, w, s).tasks[id], m)
  {
    hide ReadGrant, Eligible;
    if id in w.tasks {
      assert TaskOfTerm(w.records, w.tasks[id], m);
      if ReadGrant(w.records, m).Ok? {
        GrantMatches(w.records, m);
        ReadGrantStays(w.records, Next(limits, w, s).records, m);
      }
    }
  }

  lemma NextRecordsOfTerm(limits: Limits, w: World, s: Step, m: Manifest)
    requires Enabled(limits, w, s) && OfTerm(w, m) && Extends(w.records, Next(limits, w, s).records)
    ensures var n := Next(limits, w, s).records;
            FreeFor(n, m) && (PointerSlot in n ==> ReadGrant(n, m) == Ok(GrantOf(m)))
  {
    hide Eligible, NextStage;
    if s.Advance? { assert TaskOfTerm(w.records, w.tasks[s.id], m); }
    if PointerSlot in w.records { ReadGrantStays(w.records, Next(limits, w, s).records, m); }
  }

  lemma NextOfTerm(limits: Limits, w: World, s: Step, m: Manifest)
    requires Enabled(limits, w, s) && !s.Remove? && OfTerm(w, m) && Extends(w.records, Next(limits, w, s).records)
    ensures OfTerm(Next(limits, w, s), m)
  {
    hide Enabled, Next, ReadGrant, TaskOfTerm, FreeFor;
    ReferenceStays(limits, w, s);
    NextRecordsOfTerm(limits, w, s, m);
    forall id | id in Next(limits, w, s).tasks
      ensures TaskOfTerm(Next(limits, w, s).records, Next(limits, w, s).tasks[id], m)
    {
      NextTaskOfTerm(limits, w, s, m, id);
    }
  }

  lemma TermExtends(limits: Limits, states: seq<World>, steps: seq<Step>, a: nat, i: nat, j: nat)
    requires limits.Valid() && Run(limits, states, steps) && Term(steps, a, j) && Untouched(states[a]) && a < i <= j
    ensures Extends(states[i].records, states[j].records)
  {
    hide Enabled, Next, SlotSafe;
    UntouchedIsSafe(limits, states[a]);
    forall slot | slot in states[i].records
      ensures slot in states[j].records && states[j].records[slot] == states[i].records[slot]
    {
      RecordStays(limits, states, steps, a, i, j, slot);
    }
  }

  lemma {:induction false} TermIsOfTerm(limits: Limits, states: seq<World>, steps: seq<Step>, a: nat, b: nat)
    requires limits.Valid() && Run(limits, states, steps) && Term(steps, a, b) && Untouched(states[a])
    ensures OfTerm(states[b], steps[a].manifest)
    decreases b
  {
    hide Enabled, Next, ReadGrant;
    if b == a + 1 {
      PublishKeepsRest(limits, states[a], steps[a]);
    } else {
      TermIsOfTerm(limits, states, steps, a, b - 1);
      TermExtends(limits, states, steps, a, b - 1, b);
      NextOfTerm(limits, states[b - 1], steps[b - 1], steps[a].manifest);
    }
  }

  /** In a term that nothing precedes, the claim is of the very manifest the reference leads to. */
  lemma ClaimsReferencedSnapshot(limits: Limits, states: seq<World>, steps: seq<Step>, a: nat, i: nat, c: Claim)
    requires limits.Valid() && Run(limits, states, steps) && a < i < |steps| && Term(steps, a, i) && Untouched(states[a])
    requires Outcome(states[i], steps[i]) == Some(c)
    ensures states[i].reference == Some(states[i].tasks[steps[i].id].manifest)
  {
    hide Enabled, Next;
    TermIsOfTerm(limits, states, steps, a, i);
    assert TaskOfTerm(states[i].records, states[i].tasks[steps[i].id], steps[a].manifest);
  }

  /** A reported grant can be read back if and only if, when its pointer was put, it was itself in the grant slot: neither
      another manifest's grant nor, after a collection between the two puts, nothing. */
  lemma GrantReadableIff(limits: Limits, w: World, s: Step, g: Grant)
    requires Enabled(limits, w, s) && GrantOutcome(w, s) == Some(g)
    ensures var t := w.tasks[s.id];
            && g == GrantOf(t.manifest)
            && (t.stage.Pointing? && t.manifest.origin.mode == StopAndMove ==>
                  (ReadGrant(Next(limits, w, s).records, t.manifest) == Ok(g) <==>
                     GrantSlot in w.records && w.records[GrantSlot].record == GrantEnvelope(g)))
            && (!t.stage.Pointing? ==> ReadGrant(Next(limits, w, s).records, t.manifest) == Ok(g))
  {
  }

  // ---------- Retrying, and claiming what was granted ----------

  /** Once a claim has succeeded, in a term whose claim slot was safe at its start, claiming again gives the same claim at
      any later point of the term if and only if the grant can be read there. */
  lemma RetryIff(limits: Limits, states: seq<World>, steps: seq<Step>, a: nat, i: nat, j: nat, c: Claim)
    requires limits.Valid() && Run(limits, states, steps) && a < i < j <= |steps| && i < |steps|
    requires Term(steps, a, j) && SlotSafe(limits, states[a], ClaimSlot) && Outcome(states[i], steps[i]) == Some(c)
    ensures var t := states[i].tasks[steps[i].id];
            Claimed(states[j].records, t.manifest, t.stage.target) == Ok(c) <==> ReadGrant(states[j].records, t.manifest).Ok?
  {
    hide Enabled, Next, Eligible, SlotSafe, ReadGrant;
    var t := states[i].tasks[steps[i].id];
    OutcomeRecorded(limits, states[i], steps[i], c);
    RecordStays(limits, states, steps, a, i + 1, j, ClaimSlot);
    RunTasksOk(limits, states, steps, i);
    if ReadGrant(states[j].records, t.manifest).Ok? { GrantMatches(states[j].records, t.manifest); }
  }

  /** A grant that can be read at one point of a term, with its two slots safe at the start, can be read ever after. */
  lemma GrantStays(limits: Limits, states: seq<World>, steps: seq<Step>, a: nat, i: nat, j: nat, m: Manifest)
    requires limits.Valid() && Run(limits, states, steps) && Term(steps, a, j) && a < i <= j
    requires SlotSafe(limits, states[a], GrantSlot) && SlotSafe(limits, states[a], PointerSlot)
    requires ReadGrant(states[i].records, m).Ok?
    ensures ReadGrant(states[j].records, m) == ReadGrant(states[i].records, m) == Ok(GrantOf(m))
  {
    GrantMatches(states[i].records, m);
    hide Run, SlotSafe;
    RecordStays(limits, states, steps, a, i, j, GrantSlot);
    RecordStays(limits, states, steps, a, i, j, PointerSlot);
  }

  /** With all three slots safe at the start of the term and the grant readable when the claim succeeded, the owner may
      claim again at any later point of the term, with the same result. */
  lemma RetrySucceeds(limits: Limits, states: seq<World>, steps: seq<Step>, a: nat, i: nat, j: nat, c: Claim)
    requires limits.Valid() && Run(limits, states, steps) && a < i < j <= |steps| && i < |steps|
    requires Term(steps, a, j) && (forall slot :: SlotSafe(limits, states[a], slot)) && Outcome(states[i], steps[i]) == Some(c)
    requires ReadGrant(states[i].records, states[i].tasks[steps[i].id].manifest).Ok?
    ensures var t := states[i].tasks[steps[i].id];
            Claimed(states[j].records, t.manifest, t.stage.target) == Ok(c)
  {
    var t := states[i].tasks[steps[i].id];
    hide Run, SlotSafe, ReadGrant, Claimed;
    GrantStays(limits, states, steps, a, i, j, t.manifest);
    RetryIff(limits, states, steps, a, i, j, c);
  }

  /** In a term that nothing precedes the grant is readable whenever a claim succeeds. */
  lemma FirstTermClaims(limits: Limits, states: seq<World>, steps: seq<Step>, a: nat, i: nat, c: Claim)
    requires limits.Valid() && Run(limits, states, steps) && a < i < |steps|
    requires Term(steps, a, i) && Untouched(states[a]) && Outcome(states[i], steps[i]) == Some(c)
    ensures forall slot :: SlotSafe(limits, states[a], slot)
    ensures ReadGrant(states[i].records, states[i].tasks[steps[i].id].manifest).Ok?
  {
    hide Enabled, Next, SlotSafe, ReadGrant;
    UntouchedIsSafe(limits, states[a]);
    TermIsOfTerm(limits, states, steps, a, i);
    assert TaskOfTerm(states[i].records, states[i].tasks[steps[i].id], steps[a].manifest);
  }

  /** A reported grant that can be read, in a term whose grant and pointer slots were safe at the start, can be claimed at
      any later point: by any eligible target as long as there is no claim, and then by the one that made it. */
  lemma GrantIsClaimable(
    limits: Limits, states: seq<World>, steps: seq<Step>, a: nat, i: nat, j: nat, g: Grant, target: Target)
    requires limits.Valid() && Run(limits, states, steps) && a < i < j <= |steps| && i < |steps|
    requires Term(steps, a, j) && SlotSafe(limits, states[a], GrantSlot) && SlotSafe(limits, states[a], PointerSlot)
    requires GrantOutcome(states[i], steps[i]) == Some(g) && Eligible(g, target)
    requires ReadGrant(states[i + 1].records, states[i].tasks[steps[i].id].manifest).Ok?
    ensures var m := states[i].tasks[steps[i].id].manifest;
            && ReadGrant(states[j].records, m) == Ok(g)
            && var r := Claimed(states[j].records, m, target);
               if ClaimSlot in states[j].records then r == VerifyClaim(states[j].records, ClaimOf(g, target))
               else r == Ok(ClaimOf(g, target))
  {
    hide Enabled, Next, Eligible, SlotSafe, ReadGrant;
    var m := states[i].tasks[steps[i].id].manifest;
    GrantReadableIff(limits, states[i], steps[i], g);
    GrantStays(limits, states, steps, a, i + 1, j, m);
  }

  /** In a term that nothing precedes, a reported grant can always be read. */
  lemma FirstTermGrants(limits: Limits, states: seq<World>, steps: seq<Step>, a: nat, i: nat, g: Grant)
    requires limits.Valid() && Run(limits, states, steps) && a < i < |steps|
    requires Term(steps, a, i + 1) && Untouched(states[a]) && GrantOutcome(states[i], steps[i]) == Some(g)
    ensures forall slot :: SlotSafe(limits, states[a], slot)
    ensures ReadGrant(states[i + 1].records, states[i].tasks[steps[i].id].manifest) == Ok(g)
  {
    hide Enabled, Next, SlotSafe;
    UntouchedIsSafe(limits, states[a]);
    TermIsOfTerm(limits, states, steps, a, i);
    assert TaskOfTerm(states[i].records, states[i].tasks[steps[i].id], steps[a].manifest);
    GrantReadableIff(limits, states[i], steps[i], g);
  }

  /** In a term that nothing precedes, every grant publisher reports the grant in the end, whoever put it. */
  lemma EveryPublisherReports(limits: Limits, states: seq<World>, steps: seq<Step>, a: nat, i: nat)
    requires limits.Valid() && Run(limits, states, steps) && a < i < |steps| && Term(steps, a, i) && Untouched(states[a])
    requires steps[i].Advance? && NextStage(states[i].records, states[i].tasks[steps[i].id]).None?
    requires var t := states[i].tasks[steps[i].id]; t.stage.Rereading? || t.stage.Pointing? || t.stage.Comparing?
    ensures GrantOutcome(states[i], steps[i]) == Some(GrantOf(steps[a].manifest))
  {
    TermIsOfTerm(limits, states, steps, a, i);
    assert TaskOfTerm(states[i].records, states[i].tasks[steps[i].id], steps[a].manifest);
  }
}
