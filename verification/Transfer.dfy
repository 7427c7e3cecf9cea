/** Handing a stopped sandbox to another worker: a grant by the source and a write-once claim by the destination,
    both kept beside the snapshot. As in `Artifacts`, a digest stands for what it was taken of. */
module Transfers {
  import opened Outcomes
  import opened Artifacts

  datatype Grant = Grant(scope: Scope, sandbox: string, snapshot: string, worker: string, epoch: nat, created: nat)

  datatype Target = Target(scope: Scope, sandbox: string, worker: string, epoch: nat)

  datatype Claim = Claim(
    scope: Scope, sandbox: string, snapshot: string, sourceWorker: string, sourceEpoch: nat,
    destinationWorker: string, destinationEpoch: nat)

  /** The three records of a snapshot's transfer. */
  datatype Slot = GrantSlot | PointerSlot | ClaimSlot

  datatype Record =
    | GrantEnvelope(grant: Grant)
    | GrantPointer(snapshot: string, grant: Grant)
    | ClaimEnvelope(claim: Claim)

  datatype Kept = Kept(record: Record, modified: real)

  type Records = map<Slot, Kept>

  datatype Error = Invalid | NotFound | Integrity | AccessDenied | AlreadyClaimed

  function GrantOf(m: Manifest): Grant {
    Grant(m.scope, m.origin.sandbox, m.snapshot, m.origin.worker, m.origin.epoch, m.origin.created)
  }

  function ReadGrant(records: Records, m: Manifest): Result<Grant, Error> {
    if PointerSlot !in records then Err(NotFound)
    else if !(records[PointerSlot].record.GrantPointer? && records[PointerSlot].record.snapshot == m.snapshot) then
      Err(Integrity)
    else if GrantSlot !in records then Err(NotFound)
    else if records[GrantSlot].record != GrantEnvelope(records[PointerSlot].record.grant) then Err(Integrity)
    else
      var grant := records[PointerSlot].record.grant;
      if && grant.snapshot == m.snapshot && grant.scope == m.scope && m.origin.mode == StopAndMove
         && grant.sandbox == m.origin.sandbox && grant.worker == m.origin.worker
         && grant.epoch == m.origin.epoch && grant.created == m.origin.created
      then Ok(grant) else Err(Integrity)
  }

  /** The target is the sandbox of the grant, on another worker and in a later assignment. */
  predicate Eligible(grant: Grant, target: Target) {
    && grant.scope == target.scope && grant.sandbox == target.sandbox
    && grant.worker != target.worker && grant.epoch < target.epoch
  }

  function ClaimOf(grant: Grant, target: Target): Claim {
    Claim(grant.scope, grant.sandbox, grant.snapshot, grant.worker, grant.epoch, target.worker, target.epoch)
  }

  /** `put_if_absent`: an existing record stays as it is, with its time of modification. */
  function PutIfAbsent(records: Records, slot: Slot, record: Record, modified: real): Records {
    if slot in records then records else records[slot := Kept(record, modified)]
  }

  /** An existing claim is accepted if it opens as the very claim to be made. */
  function VerifyClaim(records: Records, claim: Claim): Result<Claim, Error> {
    if ClaimSlot !in records then Err(NotFound)
    else if records[ClaimSlot].record == ClaimEnvelope(claim) then Ok(claim)
    else Err(AlreadyClaimed)
  }

  /** What an uninterrupted claim returns. */
  function Claimed(records: Records, m: Manifest, target: Target): Result<Claim, Error> {
    match ReadGrant(records, m)
    case Err(e) => Err(e)
    case Ok(grant) =>
      if !Eligible(grant, target) then Err(AccessDenied)
      else if ClaimSlot !in records then Ok(ClaimOf(grant, target))
      else VerifyClaim(records, ClaimOf(grant, target))
  }

  lemma GrantMatches(records: Records, m: Manifest)
    requires ReadGrant(records, m).Ok?
    ensures ReadGrant(records, m) == Ok(GrantOf(m)) && m.origin.mode == StopAndMove
  {
  }

  /** A grant can be read if and only if it was made of this stop-and-move manifest and stored with its pointer. */
  lemma ReadableIff(records: Records, m: Manifest)
    ensures ReadGrant(records, m).Ok? <==>
            && m.origin.mode == StopAndMove
            && GrantSlot in records && records[GrantSlot].record == GrantEnvelope(GrantOf(m))
            && PointerSlot in records && records[PointerSlot].record == GrantPointer(m.snapshot, GrantOf(m))
  {
  }

  /** The target is the sandbox that was stopped, on another worker and in a later assignment. */
  predicate MayMove(m: Manifest, target: Target) {
    && target.scope == m.scope && target.sandbox == m.origin.sandbox
    && target.worker != m.origin.worker && target.epoch > m.origin.epoch
  }

  /** The claim is of this manifest's sandbox, from the worker and assignment it was stopped on to those of the target. */
  predicate Names(c: Claim, m: Manifest, target: Target) {
    && c.scope == m.scope && c.sandbox == m.origin.sandbox && c.snapshot == m.snapshot
    && c.sourceWorker == m.origin.worker && c.sourceEpoch == m.origin.epoch
    && c.destinationWorker == target.worker && c.destinationEpoch == target.epoch
  }

  /** A claim succeeds if and only if the grant can be read, the target may have the sandbox, and no claim is there but one
      that names the target; and the claim it returns names the target. */
  lemma ClaimedIff(records: Records, m: Manifest, target: Target)
    ensures var r := Claimed(records, m, target);
            var readable, free := ReadGrant(records, m).Ok?, ClaimSlot !in records
              || (records[ClaimSlot].record.ClaimEnvelope? && Names(records[ClaimSlot].record.claim, m, target));
            && (r.Ok? <==> readable && MayMove(m, target) && free)
            && (r.Ok? ==> Names(r.value, m, target))
            && (r == Err(AlreadyClaimed) <==> readable && MayMove(m, target) && !free)
            && (r == Err(AccessDenied) <==> readable && !MayMove(m, target))
  {
    if ReadGrant(records, m).Ok? { GrantMatches(records, m); }
  }

  /** No grant is left from another manifest. */
  predicate FreeFor(records: Records, m: Manifest) {
    GrantSlot in records ==> records[GrantSlot].record == GrantEnvelope(GrantOf(m))
  }

  /** Records only ever come in addition. */
  predicate Extends(before: Records, after: Records) {
    forall slot | slot in before :: slot in after && after[slot] == before[slot]
  }

  /** A grant pointer over another manifest's grant stays unreadable, and unclaimable, for as long as both are kept. */
  lemma UnreadableForGood(before: Records, after: Records, m: Manifest, target: Target)
    requires Extends(before, after) && PointerSlot in before && !FreeFor(before, m)
    requires before[PointerSlot].record == GrantPointer(m.snapshot, GrantOf(m))
    ensures ReadGrant(after, m) == Err(Integrity) && Claimed(after, m, target) == Err(Integrity)
  {
  }

  /** The records of one snapshot's transfer, and the operations on them, each uninterrupted. */
  class TransferRecords {
    var records: Records

    constructor ()
      ensures records == map[]
    {
      records := map[];
    }

    method Put(slot: Slot, record: Record, now: real) returns (created: bool)
      modifies this
      ensures records == PutIfAbsent(old(records), slot, record, now) && created == (slot !in old(records))
    {
      created := slot !in records;
      if created {
        records := records[slot := Kept(record, now)];
      }
    }

    /** An existing pointer decides. Without one the call succeeds for every stop-and-move snapshot, and the grant it
        reports can be read back if and only if the grant slot was empty or held this very grant. */
    method PublishGrant(m: Manifest, now: real) returns (r: Result<Grant, Error>)
      modifies this
      ensures forall slot | slot in old(records) :: slot in records && records[slot] == old(records)[slot]
      ensures records.Keys == old(records).Keys + if PointerSlot in old(records) || r.Err? then {} else {GrantSlot, PointerSlot}
      ensures r.Ok? ==> r.value == GrantOf(m)
      ensures PointerSlot in old(records) ==> r == ReadGrant(old(records), m)
      ensures PointerSlot !in old(records) ==> (r.Ok? <==> m.origin.mode == StopAndMove)
      ensures PointerSlot !in old(records) && r.Ok? ==>
                ReadGrant(records, m) == if FreeFor(old(records), m) then r else Err(Integrity)
    {
      if PointerSlot in records {
        r := ReadGrant(records, m);
        if r.Ok? { GrantMatches(records, m); }
        return;
      }
      if m.origin.mode != StopAndMove {
        return Err(Invalid);
      }
      var grant := GrantOf(m);
      var created := Put(GrantSlot, GrantEnvelope(grant), now);
      created := Put(PointerSlot, GrantPointer(m.snapshot, grant), now);
      if !created {
        var existing := ReadGrant(records, m);
        if existing.Err? {
          return existing;
        }
        if existing != Ok(grant) {
          return Err(Integrity);
        }
      }
      return Ok(grant);
    }

    /** The first claim under a grant is kept; afterwards that same claim, and no other, succeeds. */
    method MakeClaim(m: Manifest, target: Target, now: real) returns (r: Result<Claim, Error>)
      modifies this
      ensures r == Claimed(old(records), m, target)
      ensures r.Ok? ==> Names(r.value, m, target)
      ensures r.Ok? ==> records == PutIfAbsent(old(records), ClaimSlot, ClaimEnvelope(r.value), now)
      ensures r.Ok? ==> forall other :: Claimed(records, m, other).Ok? ==> Claimed(records, m, other) == r
      ensures r.Ok? ==> Claimed(records, m, target) == r
      ensures r.Err? ==> records == old(records)
    {
      ClaimedIff(records, m, target);
      var read := ReadGrant(records, m);
      if read.Err? {
        return Err(read.error);
      }
      var grant := read.value;
      if !Eligible(grant, target) {
        return Err(AccessDenied);
      }
      var claim := ClaimOf(grant, target);
      var created := Put(ClaimSlot, ClaimEnvelope(claim), now);
      if !created {
        r := VerifyClaim(records, claim);
        return;
      }
      return Ok(claim);
    }
  }
}
