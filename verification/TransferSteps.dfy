/** Transfers taken step by step and all at once: left alone, an operation of the interleaved model does exactly what the
    uninterrupted one does; and of publishers that race for one grant, the losers report it as well. */
module TransferSteps {
  import opened Outcomes
  import opened Artifacts
  import opened Transfers
  import opened TransferRuns

  function StepsLeft(stage: Stage): nat {
    match stage
    case Granting => 3
    case Sealing => 2
    case Pointing => 1
    case Rereading => 0
    case Comparing => 0
    case Claiming(_) => 2
    case Placing(_) => 1
    case Verifying(_) => 0
  }

  predicate Ready(limits: Limits, w: World, id: nat, modified: real) {
    id in w.tasks && Enabled(limits, w, Advance(id, modified))
  }

  /** The last state of operation `id` if nothing else happens; its next step ends it. */
  ghost function BeforeEnd(limits: Limits, w: World, id: nat, modified: real): (n: World)
    requires Ready(limits, w, id, modified)
    ensures Ready(limits, n, id, modified) && n.tasks[id].manifest == w.tasks[id].manifest
    decreases StepsLeft(w.tasks[id].stage)
  {
    if NextStage(w.records, w.tasks[id]).None? then w
    else BeforeEnd(limits, Next(limits, w, Advance(id, modified)), id, modified)
  }

  /** A claim that is not interrupted. */
  lemma UninterruptedClaim(limits: Limits, w: World, id: nat, modified: real)
    requires Ready(limits, w, id, modified) && w.tasks[id].stage.Claiming?
    ensures var last, s, r := BeforeEnd(limits, w, id, modified), Advance(id, modified),
                              Claimed(w.records, w.tasks[id].manifest, w.tasks[id].stage.target);
            && Outcome(last, s) == (if r.Ok? then Some(r.value) else None)
            && Next(limits, last, s).records ==
               (if r.Ok? then PutIfAbsent(w.records, ClaimSlot, ClaimEnvelope(r.value), modified) else w.records)
  {
    var t, s := w.tasks[id], Advance(id, modified);
    if ReadGrant(w.records, t.manifest).Ok? { GrantMatches(w.records, t.manifest); }
    if NextStage(w.records, t).Some? {
      var placing := Next(limits, w, s);
      assert placing.tasks[id] == t.(stage := Placing(t.stage.target)) && placing.records == w.records;
      assert BeforeEnd(limits, w, id, modified) == BeforeEnd(limits, placing, id, modified);
      if ClaimSlot in w.records {
        var verifying := Next(limits, placing, s);
        assert verifying.tasks[id] == t.(stage := Verifying(t.stage.target)) && verifying.records == w.records;
        assert BeforeEnd(limits, placing, id, modified) == BeforeEnd(limits, verifying, id, modified) == verifying;
      }
    }
  }

  /** A grant that is published without interruption: an existing pointer decides, and without one every stop-and-move
      manifest gets its grant. */
  lemma UninterruptedGrant(limits: Limits, w: World, id: nat, modified: real)
    requires Ready(limits, w, id, modified) && w.tasks[id].stage.Granting?
    ensures var last, s, m := BeforeEnd(limits, w, id, modified), Advance(id, modified), w.tasks[id].manifest;
            var read, after := ReadGrant(w.records, m), Next(limits, last, s).records;
            if PointerSlot in w.records then
              GrantOutcome(last, s) == (if read.Ok? then Some(read.value) else None) && after == w.records
            else if m.origin.mode != StopAndMove then GrantOutcome(last, s) == None && after == w.records
            else
              && GrantOutcome(last, s) == Some(GrantOf(m))
              && after == PutIfAbsent(PutIfAbsent(w.records, GrantSlot, GrantEnvelope(GrantOf(m)), modified),
                                      PointerSlot, GrantPointer(m.snapshot, GrantOf(m)), modified)
  {
    hide ReadGrant;
    var t, s := w.tasks[id], Advance(id, modified);
    if NextStage(w.records, t).Some? {
      var second := Next(limits, w, s);
      assert BeforeEnd(limits, w, id, modified) == BeforeEnd(limits, second, id, modified);
      if PointerSlot !in w.records {
        assert second.tasks[id] == t.(stage := Sealing) && second.records == w.records;
        var third := Next(limits, second, s);
        assert third.tasks[id] == t.(stage := Pointing) && PointerSlot !in third.records;
        assert BeforeEnd(limits, second, id, modified) == BeforeEnd(limits, third, id, modified) == third;
      }
    }
  }
}
