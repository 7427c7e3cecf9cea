/** When a snapshot that is published again can be claimed by two destinations, and when a reported grant is of no use:
    runs that show that the conditions on a term are needed. */
module TransferRaces {
  import opened Numbers
  import opened Outcomes
  import opened Artifacts
  import opened Transfers
  import opened TransferRuns

  // ---------- Building runs ----------

  function Last(states: seq<World>): World
    requires states != []
  {
    states[|states| - 1]
  }

  /** `longer` continues the run without removing the reference. */
  ghost predicate Continues(
    limits: Limits, states: seq<World>, steps: seq<Step>, longer: seq<World>, done: seq<Step>)
  {
    && Run(limits, longer, done) && states != [] && |states| == |steps| + 1 && |longer| == |done| + 1
    && states <= longer && steps <= done
    && forall i | |steps| <= i < |done| :: !done[i].Remove?
  }

  lemma Stay(limits: Limits, states: seq<World>, steps: seq<Step>)
    requires Run(limits, states, steps)
    ensures Continues(limits, states, steps, states, steps)
  {
  }

  lemma Extend(limits: Limits, start: seq<World>, first: seq<Step>, states: seq<World>, steps: seq<Step>, s: Step)
    returns (longer: seq<World>, done: seq<Step>)
    requires Continues(limits, start, first, states, steps) && Enabled(limits, Last(states), s) && !s.Remove?
    ensures Continues(limits, start, first, longer, done) && Last(longer) == Next(limits, Last(states), s)
    ensures longer == states + [Last(longer)] && done == steps + [s]
  {
    hide Enabled, Next;
    longer, done := states + [Next(limits, Last(states), s)], steps + [s];
  }

  lemma UnusedId(tasks: map<nat, Task>) returns (id: nat)
    ensures id !in tasks
  {
    id := Above(tasks.Keys);
  }

  // ---------- Granting and claiming within a run ----------

  /** A grant of the manifest can be read, or can still be made. */
  predicate Grantable(records: Records, m: Manifest) {
    ReadGrant(records, m).Ok? || (PointerSlot !in records && FreeFor(records, m))
  }

  /** The same state but for the records. */
  predicate SameBut(w: World, n: World, records: Records) {
    n == w.(records := records)
  }

  /** The state with one more operation under way. */
  function With(w: World, id: nat, t: Task): World {
    w.(tasks := w.tasks[id := t])
  }

  lemma BeginOne(
    limits: Limits, start: seq<World>, first: seq<Step>, states: seq<World>, steps: seq<Step>, id: nat, target: Option<Target>)
    returns (longer: seq<World>, done: seq<Step>)
    requires Continues(limits, start, first, states, steps) && Last(states).reference.Some? && id !in Last(states).tasks
    ensures Continues(limits, start, first, longer, done) && longer == states + [Last(longer)] && |done| == |steps| + 1 && steps <= done
    ensures var w := Last(states);
            Last(longer) == With(w, id, Task(w.reference.value, w.now, if target.Some? then Claiming(target.value) else Granting))
  {
    hide Run;
    longer, done := Extend(limits, start, first, states, steps, Begin(id, target));
  }

  /** One step of an operation that has just begun. */
  lemma AdvanceOne(
    limits: Limits, start: seq<World>, first: seq<Step>, states: seq<World>, steps: seq<Step>, w: World, id: nat, t: Task)
    returns (longer: seq<World>, done: seq<Step>)
    requires limits.Valid() && Continues(limits, start, first, states, steps) && Last(states) == With(w, id, t)
    requires t.started == w.now && id !in w.tasks
    ensures Continues(limits, start, first, longer, done) && longer == states + [Last(longer)]
    ensures done == steps + [Advance(id, w.now)]
    ensures var n, stage := w.(records := NextRecords(w.records, t, w.now)), NextStage(w.records, t);
            Last(longer) == if stage.Some? then With(n, id, t.(stage := stage.value)) else n
  {
    hide Run, NextStage, NextRecords;
    longer, done := Extend(limits, start, first, states, steps, Advance(id, w.now));
    assert w.tasks[id := t] - {id} == w.tasks;
  }

  /** Makes a grant, if there is none. */
  lemma GrantOnce(limits: Limits, start: seq<World>, first: seq<Step>, states: seq<World>, steps: seq<Step>, m: Manifest)
    returns (longer: seq<World>, done: seq<Step>)
    requires limits.Valid() && Continues(limits, start, first, states, steps)
    requires Last(states).reference == Some(m) && m.origin.mode == StopAndMove && Grantable(Last(states).records, m)
    ensures Continues(limits, start, first, longer, done) && states <= longer && steps <= done
    ensures var w, n := Last(states), Last(longer);
            && SameBut(w, n, n.records) && ReadGrant(n.records, m) == Ok(GrantOf(m))
            && (ClaimSlot in n.records <==> ClaimSlot in w.records)
            && (ClaimSlot in w.records ==> n.records[ClaimSlot] == w.records[ClaimSlot])
  {
    hide Run;
    if ReadGrant(Last(states).records, m).Ok? {
      longer, done := states, steps;
    } else {
      hide ReadGrant;
      var w := Last(states);
      var id := UnusedId(w.tasks);
      var t := Task(m, w.now, Granting);
      longer, done := BeginOne(limits, start, first, states, steps, id, None);
      longer, done := AdvanceOne(limits, start, first, longer, done, w, id, t);
      longer, done := AdvanceOne(limits, start, first, longer, done, w, id, t.(stage := Sealing));
      var n := w.(records := NextRecords(w.records, t.(stage := Sealing), w.now));
      longer, done := AdvanceOne(limits, start, first, longer, done, n, id, t.(stage := Pointing));
      GrantMade(w.records, m, w.now);
    }
  }

  lemma GrantMade(records: Records, m: Manifest, now: real)
    requires PointerSlot !in records && FreeFor(records, m) && m.origin.mode == StopAndMove
    ensures var sealed := PutIfAbsent(records, GrantSlot, GrantEnvelope(GrantOf(m)), now);
            var pointed := PutIfAbsent(sealed, PointerSlot, GrantPointer(m.snapshot, GrantOf(m)), now);
            PointerSlot !in sealed && ReadGrant(pointed, m) == Ok(GrantOf(m))
  {
  }

  /** A claim without interruption; the last of the steps has the outcome. */
  lemma ClaimOnce(
    limits: Limits, start: seq<World>, first: seq<Step>, states: seq<World>, steps: seq<Step>, m: Manifest, target: Target)
    returns (longer: seq<World>, done: seq<Step>)
    requires limits.Valid() && Continues(limits, start, first, states, steps)
    requires Last(states).reference == Some(m) && ReadGrant(Last(states).records, m) == Ok(GrantOf(m))
    requires Eligible(GrantOf(m), target) && Claimed(Last(states).records, m, target).Ok?
    ensures Continues(limits, start, first, longer, done) && |steps| < |done| && states <= longer && steps <= done
    ensures Outcome(longer[|done| - 1], done[|done| - 1]) == Some(ClaimOf(GrantOf(m), target))
    ensures var w, n := Last(states), Last(longer);
            SameBut(w, n, PutIfAbsent(w.records, ClaimSlot, ClaimEnvelope(ClaimOf(GrantOf(m), target)), w.now))
  {
    hide Run, ReadGrant, Eligible;
    var w := Last(states);
    var id := UnusedId(w.tasks);
    var t := Task(m, w.now, Claiming(target));
    longer, done := BeginOne(limits, start, first, states, steps, id, Some(target));
    longer, done := AdvanceOne(limits, start, first, longer, done, w, id, t);
    longer, done := AdvanceOne(limits, start, first, longer, done, w, id, t.(stage := Placing(target)));
    if ClaimSlot in w.records {
      longer, done := AdvanceOne(limits, start, first, longer, done, w, id, t.(stage := Verifying(target)));
    }
  }

  // ---------- Losing a claim ----------

  /** The collection has marked the claim, or still has the time to. */
  predicate Takes(limits: Limits, w: World, id: nat) {
    && id in w.collectors && Missed(limits, w, w.collectors[id]) && ClaimSlot in w.records
    && (ClaimSlot in w.collectors[id].doomed || !Spares(limits, w.collectors[id], w.records[ClaimSlot].modified))
  }

  /** A collection that can take the claim takes it. */
  lemma LoseClaim(limits: Limits, start: seq<World>, first: seq<Step>, states: seq<World>, steps: seq<Step>, id: nat)
    returns (longer: seq<World>, done: seq<Step>)
    requires limits.Valid() && Continues(limits, start, first, states, steps) && Takes(limits, Last(states), id)
    ensures Continues(limits, start, first, longer, done) && states <= longer && steps <= done
    ensures Last(longer).reference == Last(states).reference && Last(longer).records == Last(states).records - {ClaimSlot}
  {
    hide Run;
    longer, done := MarkClaim(limits, start, first, states, steps, id);
    longer, done := Extend(limits, start, first, longer, done, Delete(id, ClaimSlot));
  }

  lemma MarkClaim(limits: Limits, start: seq<World>, first: seq<Step>, states: seq<World>, steps: seq<Step>, id: nat)
    returns (longer: seq<World>, done: seq<Step>)
    requires limits.Valid() && Continues(limits, start, first, states, steps) && Takes(limits, Last(states), id)
    ensures Continues(limits, start, first, longer, done) && states <= longer && steps <= done
    ensures var w, n := Last(states), Last(longer);
            && n.reference == w.reference && n.records == w.records
            && Collecting(limits, n, id) && ClaimSlot in n.collectors[id].doomed
  {
    hide Run;
    longer, done := states, steps;
    var w := Last(states);
    if ClaimSlot !in w.collectors[id].doomed {
      if w.collectors[id].cutoff.None? {
        var due := w.records[ClaimSlot].modified + limits.grace;
        longer, done := Extend(limits, start, first, longer, done, Wait(if w.now <= due then due else w.now));
        longer, done := Extend(limits, start, first, longer, done, Cut(id));
      }
      longer, done := Extend(limits, start, first, longer, done, Mark(id, ClaimSlot));
    }
  }

  lemma GrantWithoutClaim(records: Records, m: Manifest)
    ensures ReadGrant(records - {ClaimSlot}, m) == ReadGrant(records, m)
  {
  }

  /** Some target other than the claim's own. */
  function OtherTarget(g: Grant, c: Claim): (t: Target)
    ensures Eligible(g, t) && ClaimOf(g, t) != c
  {
    Target(g.scope, g.sandbox, g.worker + "'", if c.destinationEpoch == g.epoch + 1 then g.epoch + 2 else g.epoch + 1)
  }

  // ---------- The exact condition ----------

  /** What the run has left behind is of this manifest, as when the same snapshot is published again: its grant can be
      read or made, a claim that is left is one under that grant, and operations still under way loaded this manifest. */
  ghost predicate LeftBy(w: World, m: Manifest) {
    && m.origin.mode == StopAndMove && Grantable(w.records, m)
    && (ClaimSlot in w.records ==>
          exists target :: Eligible(GrantOf(m), target) && w.records[ClaimSlot].record == ClaimEnvelope(ClaimOf(GrantOf(m), target)))
    && forall id | id in w.tasks :: w.tasks[id].manifest == m
  }

  /** Two destinations succeed in the term that `Publish(m)` starts after the given run. */
  ghost predicate TwoDestinations(
    limits: Limits, states: seq<World>, steps: seq<Step>, m: Manifest, longer: seq<World>, done: seq<Step>, i: nat, j: nat)
  {
    && Continues(limits, states, steps, longer, done)
    && |steps| < i < j < |done| && done[|steps|] == Publish(m)
    && Outcome(longer[i], done[i]).Some? && Outcome(longer[j], done[j]).Some?
    && Outcome(longer[i], done[i]) != Outcome(longer[j], done[j])
  }

  /** There is a claim, its grant can be read, and the collection can take it. */
  ghost predicate Endangered(limits: Limits, w: World, m: Manifest, id: nat) {
    w.reference == Some(m) && ReadGrant(w.records, m) == Ok(GrantOf(m)) && Takes(limits, w, id)
  }

  /** An operation of an earlier term places its claim, with a modification time as old as itself. */
  lemma OldTaskClaims(
    limits: Limits, start: seq<World>, first: seq<Step>, states: seq<World>, steps: seq<Step>, m: Manifest, id: nat, t: nat)
    returns (longer: seq<World>, done: seq<Step>)
    requires limits.Valid() && Continues(limits, start, first, states, steps)
    requires var w := Last(states);
             && w.reference == Some(m) && ReadGrant(w.records, m) == Ok(GrantOf(m)) && ClaimSlot !in w.records
             && t in w.tasks && w.tasks[t].manifest == m && InTime(limits, w, w.tasks[t].started) && MayPut(w.tasks[t], ClaimSlot)
             && w.tasks[t].started <= w.now
             && id in w.collectors && Missed(limits, w, w.collectors[id])
             && !Spares(limits, w.collectors[id], w.tasks[t].started)
    ensures Continues(limits, start, first, longer, done) && |steps| < |done| && states <= longer && steps <= done
    ensures Outcome(longer[|done| - 1], done[|done| - 1]).Some? && Endangered(limits, Last(longer), m, id)
  {
    hide Run, Eligible, ReadGrant;
    longer, done := states, steps;
    var w := Last(states);
    var began := w.tasks[t].started;
    if w.tasks[t].stage.Claiming? {
      longer, done := Extend(limits, start, first, longer, done, Advance(t, began));
    }
    longer, done := Extend(limits, start, first, longer, done, Advance(t, began));
    ReadGrantStays(w.records, Last(longer).records, m);
  }

  lemma FirstClaim(
    limits: Limits, start: seq<World>, first: seq<Step>, states: seq<World>, steps: seq<Step>, m: Manifest, id: nat)
    returns (longer: seq<World>, done: seq<Step>)
    requires limits.Valid() && Continues(limits, start, first, states, steps) && Sane(limits, Last(states))
    requires Last(states).reference == Some(m) && LeftBy(Last(states), m)
    requires id in Last(states).collectors && Missed(limits, Last(states), Last(states).collectors[id])
    requires !SafeFrom(limits, Last(states), Last(states).collectors[id], ClaimSlot)
    ensures Continues(limits, start, first, longer, done) && |steps| < |done| && states <= longer && steps <= done
    ensures Outcome(longer[|done| - 1], done[|done| - 1]).Some? && Endangered(limits, Last(longer), m, id)
  {
    hide Run, Eligible, ReadGrant, Outcome, MayPut;
    var w := Last(states);
    longer, done := GrantOnce(limits, start, first, states, steps, m);
    var n := Last(longer);
    if ClaimSlot in w.records {
      var target :| Eligible(GrantOf(m), target) && w.records[ClaimSlot].record == ClaimEnvelope(ClaimOf(GrantOf(m), target));
      longer, done := ClaimOnce(limits, start, first, longer, done, m, target);
    } else if ClaimSlot in w.collectors[id].doomed {
      var target := OtherTarget(GrantOf(m), ClaimOf(GrantOf(m), Target(m.scope, "", "", 0)));
      longer, done := ClaimOnce(limits, start, first, longer, done, m, target);
      ReadGrantStays(n.records, Last(longer).records, m);
    } else {
      var t :| t in w.tasks && InTime(limits, w, w.tasks[t].started) && MayPut(w.tasks[t], ClaimSlot)
               && !Spares(limits, w.collectors[id], w.tasks[t].started);
      longer, done := OldTaskClaims(limits, start, first, longer, done, m, id, t);
    }
  }

  /** Whenever the claim slot is not safe, the term can see two destinations succeed. */
  lemma TwoUnlessSafe(limits: Limits, states: seq<World>, steps: seq<Step>, m: Manifest)
    returns (longer: seq<World>, done: seq<Step>, i: nat, j: nat)
    requires limits.Valid() && Run(limits, states, steps) && states != [] && Last(states).reference.None?
    requires LeftBy(Last(states), m) && !SlotSafe(limits, Last(states), ClaimSlot)
    ensures TwoDestinations(limits, states, steps, m, longer, done, i, j)
  {
    var w := Last(states);
    Stay(limits, states, steps);
    RunSane(limits, states, steps, |steps|);
    hide Run, Eligible, ReadGrant, Outcome, SafeFrom, Sane;
    var id :| id in w.collectors && Missed(limits, w, w.collectors[id]) && !SafeFrom(limits, w, w.collectors[id], ClaimSlot);
    longer, done := Extend(limits, states, steps, states, steps, Publish(m));
    PublishedLeft(limits, w, m, id);
    longer, done := FirstClaim(limits, states, steps, longer, done, m, id);
    var claimed, taken := longer, done;
    i := |done| - 1;
    var c := Outcome(longer[i], done[i]).value;
    longer, done := LoseClaim(limits, states, steps, longer, done, id);
    GrantWithoutClaim(Last(claimed).records, m);
    longer, done := ClaimOnce(limits, states, steps, longer, done, m, OtherTarget(GrantOf(m), c));
    j := |done| - 1;
    assert longer[i] == claimed[i] && done[i] == taken[i];
  }

  lemma PublishedLeft(limits: Limits, w: World, m: Manifest, id: nat)
    requires Sane(limits, w) && LeftBy(w, m) && w.reference.None?
    requires id in w.collectors && Missed(limits, w, w.collectors[id]) && !SafeFrom(limits, w, w.collectors[id], ClaimSlot)
    ensures var n := Next(limits, w, Publish(m));
            && n.reference == Some(m) && Sane(limits, n) && LeftBy(n, m)
            && id in n.collectors && Missed(limits, n, n.collectors[id]) && !SafeFrom(limits, n, n.collectors[id], ClaimSlot)
  {
    hide Eligible, ReadGrant;
  }

  /** When a snapshot is published again, all claims of the new term agree in every continuation if and only if the claim
      slot is safe at that point: no collection that missed the reference has marked the claim, can still mark one that
      is left, or one that an operation under way may yet place. */
  lemma OneDestinationExactly(limits: Limits, states: seq<World>, steps: seq<Step>, m: Manifest)
    requires limits.Valid() && Run(limits, states, steps) && states != [] && Last(states).reference.None?
    requires LeftBy(Last(states), m)
    ensures SlotSafe(limits, Last(states), ClaimSlot) <==>
            forall longer, done, i, j :: !TwoDestinations(limits, states, steps, m, longer, done, i, j)
  {
    hide SlotSafe, LeftBy;
    if SlotSafe(limits, Last(states), ClaimSlot) {
      forall longer, done, i, j ensures !TwoDestinations(limits, states, steps, m, longer, done, i, j) {
        NeverTwo(limits, states, steps, m, longer, done, i, j);
      }
    } else {
      var longer, done, i, j := TwoUnlessSafe(limits, states, steps, m);
    }
  }

  lemma NeverTwo(
    limits: Limits, states: seq<World>, steps: seq<Step>, m: Manifest, longer: seq<World>, done: seq<Step>, i: nat, j: nat)
    requires limits.Valid() && Run(limits, states, steps) && states != [] && SlotSafe(limits, Last(states), ClaimSlot)
    ensures !TwoDestinations(limits, states, steps, m, longer, done, i, j)
  {
    hide SlotSafe, Outcome, Run;
    if TwoDestinations(limits, states, steps, m, longer, done, i, j) {
      OneDestination(limits, longer, done, |steps|, i, j, Outcome(longer[i], done[i]).value, Outcome(longer[j], done[j]).value);
    }
  }

  /** A term with a grant and a claim, ended for as long as the grace period. */
  lemma EarlierTerm(limits: Limits, m: Manifest, target: Target) returns (states: seq<World>, steps: seq<Step>)
    requires limits.Valid() && m.origin.mode == StopAndMove && Eligible(GrantOf(m), target)
    ensures Run(limits, states, steps) && |states| == |steps| + 1
    ensures var w := Last(states);
            && w.reference.None? && w.now == limits.grace && w.tasks == map[] && w.collectors == map[] && Grantable(w.records, m)
            && ClaimSlot in w.records && w.records[ClaimSlot] == Kept(ClaimEnvelope(ClaimOf(GrantOf(m), target)), 0.0)
  {
    states, steps := [Empty()], [];
    Stay(limits, states, steps);
    var start, first := states, steps;
    hide Run, Eligible;
    states, steps := Extend(limits, start, first, states, steps, Publish(m));
    states, steps := GrantOnce(limits, start, first, states, steps, m);
    var granted := Last(states).records;
    states, steps := ClaimOnce(limits, start, first, states, steps, m, target);
    ReadGrantStays(granted, Last(states).records, m);
    states, steps := Extend(limits, start, first, states, steps, Wait(limits.grace));
    states, steps := Removed(limits, states, steps);
  }

  /** For one: the reference is removed and put back around a collection's listing, with an old claim left. */
  lemma LeftoverClaimIsLost(limits: Limits, m: Manifest, target: Target)
    returns (states: seq<World>, steps: seq<Step>, longer: seq<World>, done: seq<Step>, i: nat, j: nat)
    requires limits.Valid() && m.origin.mode == StopAndMove && Eligible(GrantOf(m), target)
    ensures TwoDestinations(limits, states, steps, m, longer, done, i, j)
  {
    states, steps := EarlierTerm(limits, m, target);
    Stay(limits, states, steps);
    var start, first := states, steps;
    hide Run, Eligible, ReadGrant, Outcome;
    states, steps := Extend(limits, start, first, states, steps, Collect(0));
    states, steps := Extend(limits, start, first, states, steps, List(0));
    assert !SafeFrom(limits, Last(states), Last(states).collectors[0], ClaimSlot);
    longer, done, i, j := TwoUnlessSafe(limits, states, steps, m);
  }

  lemma Removed(limits: Limits, states: seq<World>, steps: seq<Step>) returns (longer: seq<World>, done: seq<Step>)
    requires Run(limits, states, steps) && states != []
    ensures Run(limits, longer, done) && |longer| == |done| + 1 && Last(longer) == Last(states).(reference := None)
  {
    longer, done := states + [Next(limits, Last(states), Remove)], steps + [Remove];
  }

  // ---------- A grant of no use ----------

  /** A term in which the grant was stored but its publisher stopped before the pointer, ended. */
  lemma HalfGranted(limits: Limits, m: Manifest) returns (states: seq<World>, steps: seq<Step>)
    requires limits.Valid() && m.origin.mode == StopAndMove
    ensures Run(limits, states, steps) && |states| == |steps| + 1
    ensures Last(states) == Empty().(records := map[GrantSlot := Kept(GrantEnvelope(GrantOf(m)), 0.0)])
  {
    states, steps := [Empty()], [];
    Stay(limits, states, steps);
    var start, first := states, steps;
    hide Run;
    states, steps := Extend(limits, start, first, states, steps, Publish(m));
    states, steps := Extend(limits, start, first, states, steps, Begin(0, None));
    states, steps := Extend(limits, start, first, states, steps, Advance(0, 0.0));
    states, steps := Extend(limits, start, first, states, steps, Advance(0, 0.0));
    states, steps := Extend(limits, start, first, states, steps, Stop(0));
    states, steps := Removed(limits, states, steps);
  }

  /** If another manifest is then published under the same snapshot name, publishing its grant succeeds, and the grant
      cannot be read, nor claimed by anyone. */
  lemma LeftoverGrantBlocks(limits: Limits, m: Manifest, other: Manifest) returns (states: seq<World>, steps: seq<Step>)
    requires limits.Valid() && m.origin.mode == StopAndMove && other.origin.mode == StopAndMove && GrantOf(m) != GrantOf(other)
    ensures Run(limits, states, steps) && steps != [] && |states| == |steps| + 1
    ensures GrantOutcome(states[|steps| - 1], steps[|steps| - 1]) == Some(GrantOf(other))
    ensures Last(states).reference == Some(other) && ReadGrant(Last(states).records, other) == Err(Integrity)
    ensures forall target :: Claimed(Last(states).records, other, target) == Err(Integrity)
  {
    states, steps := HalfGranted(limits, m);
    Stay(limits, states, steps);
    var start, first := states, steps;
    hide Run;
    states, steps := Extend(limits, start, first, states, steps, Publish(other));
    states, steps := Extend(limits, start, first, states, steps, Begin(0, None));
    states, steps := Extend(limits, start, first, states, steps, Advance(0, 0.0));
    states, steps := Extend(limits, start, first, states, steps, Advance(0, 0.0));
    states, steps := Extend(limits, start, first, states, steps, Advance(0, 0.0));
  }

  // ---------- A retry that fails ----------

  /** An old grant, read by a claim that has yet to be placed, and its reference then removed. */
  ghost predicate Overtaken(limits: Limits, w: World, m: Manifest, target: Target) {
    && w.now == limits.grace && w.reference.None?
    && w.tasks == map[0 := Task(m, limits.grace, Placing(target))]
    && w.records.Keys == {GrantSlot, PointerSlot} && (forall slot | slot in w.records :: w.records[slot].modified == 0.0)
  }

  /** A first term with its grant made. */
  lemma Granted(limits: Limits, m: Manifest) returns (states: seq<World>, steps: seq<Step>)
    requires limits.Valid() && m.origin.mode == StopAndMove
    ensures Run(limits, states, steps) && |states| == |steps| + 1
    ensures var w := Last(states);
            && w.now == 0.0 && w.reference == Some(m) && w.tasks == map[] && w.collectors == map[]
            && w.records.Keys == {GrantSlot, PointerSlot} && (forall slot | slot in w.records :: w.records[slot].modified == 0.0)
            && ReadGrant(w.records, m) == Ok(GrantOf(m))
  {
    states, steps := [Empty()], [];
    Stay(limits, states, steps);
    var start, first := states, steps;
    hide Run;
    states, steps := Extend(limits, start, first, states, steps, Publish(m));
    var w := Last(states);
    var t := Task(m, 0.0, Granting);
    states, steps := BeginOne(limits, start, first, states, steps, 0, None);
    states, steps := AdvanceOne(limits, start, first, states, steps, w, 0, t);
    states, steps := AdvanceOne(limits, start, first, states, steps, w, 0, t.(stage := Sealing));
    w := w.(records := NextRecords(w.records, t.(stage := Sealing), 0.0));
    states, steps := AdvanceOne(limits, start, first, states, steps, w, 0, t.(stage := Pointing));
    GrantMade(map[], m, 0.0);
  }

  lemma ReadAndOvertaken(limits: Limits, m: Manifest, target: Target) returns (states: seq<World>, steps: seq<Step>)
    requires limits.Valid() && m.origin.mode == StopAndMove && Eligible(GrantOf(m), target)
    ensures Run(limits, states, steps) && |states| == |steps| + 1 && Last(states).collectors == map[]
    ensures Overtaken(limits, Last(states), m, target)
  {
    states, steps := Granted(limits, m);
    Stay(limits, states, steps);
    var start, first := states, steps;
    hide Run, Eligible, ReadGrant;
    states, steps := Extend(limits, start, first, states, steps, Wait(limits.grace));
    var w := Last(states);
    states, steps := BeginOne(limits, start, first, states, steps, 0, Some(target));
    states, steps := AdvanceOne(limits, start, first, states, steps, w, 0, Task(m, limits.grace, Claiming(target)));
    states, steps := Removed(limits, states, steps);
  }

  lemma TakeSlot(limits: Limits, start: seq<World>, first: seq<Step>, states: seq<World>, steps: seq<Step>, slot: Slot)
    returns (longer: seq<World>, done: seq<Step>)
    requires Continues(limits, start, first, states, steps)
    requires Collecting(limits, Last(states), 0) && Last(states).collectors[0].cutoff == Some(0.0) && !Last(states).collectors[0].referenced
    requires slot in Last(states).records && Last(states).records[slot].modified == 0.0
    ensures Continues(limits, start, first, longer, done)
    ensures var w, n := Last(states), Last(longer);
            && n == w.(records := w.records - {slot}, collectors := n.collectors)
            && Collecting(limits, n, 0) && n.collectors[0].cutoff == Some(0.0) && !n.collectors[0].referenced
            && n.collectors.Keys == w.collectors.Keys
  {
    hide Run;
    longer, done := Extend(limits, start, first, states, steps, Mark(0, slot));
    longer, done := Extend(limits, start, first, longer, done, Delete(0, slot));
  }

  /** A collection then takes the grant and its pointer, and ends. */
  lemma GrantTaken(limits: Limits, m: Manifest, target: Target) returns (states: seq<World>, steps: seq<Step>)
    requires limits.Valid() && m.origin.mode == StopAndMove && Eligible(GrantOf(m), target)
    ensures Run(limits, states, steps) && |states| == |steps| + 1
    ensures Last(states) == World(limits.grace, None, map[], map[0 := Task(m, limits.grace, Placing(target))], map[])
  {
    states, steps := ReadAndOvertaken(limits, m, target);
    Stay(limits, states, steps);
    var start, first := states, steps;
    hide Run, Eligible;
    states, steps := Extend(limits, start, first, states, steps, Collect(0));
    states, steps := Extend(limits, start, first, states, steps, List(0));
    states, steps := Extend(limits, start, first, states, steps, Cut(0));
    states, steps := TakeSlot(limits, start, first, states, steps, GrantSlot);
    states, steps := TakeSlot(limits, start, first, states, steps, PointerSlot);
    states, steps := Extend(limits, start, first, states, steps, Finish(0));
    assert Last(states).records == map[] && Last(states).collectors == map[];
  }

  /** The same snapshot is published again, with no collection about and every slot safe; the claim is placed and
      succeeds; and claiming again fails, because there is no grant. */
  lemma RetryFails(limits: Limits, m: Manifest, target: Target)
    returns (states: seq<World>, steps: seq<Step>, a: nat, i: nat)
    requires limits.Valid() && m.origin.mode == StopAndMove && Eligible(GrantOf(m), target)
    ensures Run(limits, states, steps) && a < i < |steps| && |states| == |steps| + 1 && Term(steps, a, |steps|)
    ensures states[a].collectors == map[] && forall slot :: SlotSafe(limits, states[a], slot)
    ensures Outcome(states[i], steps[i]) == Some(ClaimOf(GrantOf(m), target))
    ensures Last(states).reference == Some(m) && Claimed(Last(states).records, m, target) == Err(NotFound)
  {
    states, steps := GrantTaken(limits, m, target);
    Stay(limits, states, steps);
    var start, first := states, steps;
    hide Run, Eligible;
    a := |steps|;
    states, steps := Extend(limits, start, first, states, steps, Publish(m));
    i := |steps|;
    states, steps := Extend(limits, start, first, states, steps, Advance(0, limits.grace));
    assert states[a] == Last(start);
  }

  // ---------- What is left of a removed snapshot ----------

  /** A collection that began after the reference was removed has taken its cutoff. */
  ghost predicate Cutting(limits: Limits, w: World, n: World, id: nat) {
    && n == w.(collectors := n.collectors) && Collecting(limits, n, id)
    && n.collectors[id].cutoff == Some(w.now - limits.grace) && !n.collectors[id].referenced
  }

  lemma StartCutting(limits: Limits, states: seq<World>, steps: seq<Step>, id: nat) returns (longer: seq<World>, done: seq<Step>)
    requires limits.Valid() && Continues(limits, states, steps, states, steps) && Last(states).reference.None?
    requires id !in Last(states).collectors
    ensures Continues(limits, states, steps, longer, done) && Cutting(limits, Last(states), Last(longer), id)
  {
    hide Run;
    longer, done := Extend(limits, states, steps, states, steps, Collect(id));
    longer, done := Extend(limits, states, steps, longer, done, List(id));
    longer, done := Extend(limits, states, steps, longer, done, Cut(id));
  }

  /** Whatever else goes on, a record of a snapshot that is not referenced can be collected once the grace period is over. */
  lemma LeftoverGoes(limits: Limits, states: seq<World>, steps: seq<Step>, slot: Slot)
    returns (longer: seq<World>, done: seq<Step>)
    requires limits.Valid() && Run(limits, states, steps) && states != [] && Last(states).reference.None?
    requires slot in Last(states).records && Last(states).records[slot].modified + limits.grace <= Last(states).now
    ensures Continues(limits, states, steps, longer, done)
    ensures Last(longer).records == Last(states).records - {slot} && Last(longer).tasks == Last(states).tasks
  {
    Stay(limits, states, steps);
    hide Run;
    var id := Above(Last(states).collectors.Keys);
    longer, done := StartCutting(limits, states, steps, id);
    longer, done := Extend(limits, states, steps, longer, done, Mark(id, slot));
    longer, done := Extend(limits, states, steps, longer, done, Delete(id, slot));
  }
}
