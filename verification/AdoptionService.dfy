/** The parent-side adoption service: one delivery at a time over the in-memory store. */
module AdoptionService {
  import opened Wrappers
  import opened Sorting
  import opened ObjectStore
  import opened Strings
  import opened ArtifactKeys
  import opened RunLifecycle
  import opened Adoption
  import opened AdoptionProgress
  import opened StagingCleanup

  datatype Fate = Absent | Deferred | Deleted | Undeletable

  lemma LoadOutcome(cfg: Config, run: Run, claim: Claim)
    ensures Load(cfg, run, claim) == Loaded(run.state) || (Load(cfg, run, claim).Done? && Load(cfg, run, claim).outcome.Refused?)
  {
  }

  lemma {:induction false} DoneStays(cfg: Config, now: int, v: View, n: nat)
    requires ValidClaim(v.attempt.claim) && v.attempt.phase.Done?
    ensures Sections(cfg, now, v, n) == v
  {
    if n > 0 {
      DoneStays(cfg, now, v, n - 1);
    }
  }

  // The last three sections when writing or reading back fails.
  lemma FailedWriteEnds(cfg: Config, now: int, v: View, written: Phase)
    requires ValidClaim(v.attempt.claim) && v.attempt.phase.Cleared? && written.Done?
    requires var (objects, phase, created) := PutFinal(cfg, v.objects, now, v.run, v.attempt.claim, v.attempt.phase.payload);
             && (phase.Written? ==> phase.payload == v.attempt.phase.payload)
             && written == if phase.Written? then VerifyFinal(cfg, objects, v.run, v.attempt.claim, v.attempt.phase.payload) else phase
    ensures var w := Sections(cfg, now, v, 3);
            && w.attempt.phase == written && w.run == v.run
            && w.objects == PutFinal(cfg, v.objects, now, v.run, v.attempt.claim, v.attempt.phase.payload).0
  {
    hide PutFinal, VerifyFinal, Sections, ReadStaged, Load, Commit, Acknowledge, Adopts, ValidClaim;
    SectionsStep(cfg, now, v, 3);
    var v' := Section(cfg, now, v);
    SectionsStep(cfg, now, v', 2);
    if v'.attempt.phase.Written? {
      DoneStays(cfg, now, Section(cfg, now, v'), 1);
    } else {
      DoneStays(cfg, now, v', 2);
    }
  }

  // The last three sections when both succeed: the commit decides.
  lemma SuccessfulWriteEnds(cfg: Config, now: int, v: View)
    requires ValidClaim(v.attempt.claim) && v.attempt.phase.Cleared?
    requires var (objects, phase, created) := PutFinal(cfg, v.objects, now, v.run, v.attempt.claim, v.attempt.phase.payload);
             && phase == Written(v.attempt.phase.payload)
             && VerifyFinal(cfg, objects, v.run, v.attempt.claim, v.attempt.phase.payload) == Verified(v.attempt.phase.payload)
    ensures var w := Sections(cfg, now, v, 3);
            && w.objects == PutFinal(cfg, v.objects, now, v.run, v.attempt.claim, v.attempt.phase.payload).0
            && w.run == Commit(v.run, Adopts(v.run, v.attempt.claim)).0
            && w.attempt.phase == Done(Commit(v.run, Adopts(v.run, v.attempt.claim)).1)
  {
    hide PutFinal, VerifyFinal, Sections, ReadStaged, Load, Commit, Acknowledge, FinalKey, IsHex;
    SectionsStep(cfg, now, v, 3);
    var v1 := Section(cfg, now, v);
    SectionsStep(cfg, now, v1, 2);
    var v2 := Section(cfg, now, v1);
    SectionsStep(cfg, now, v2, 1);
    SectionsEnd(cfg, now, Section(cfg, now, v2));
  }

  // ---------- the outcome of an undisturbed delivery ----------

  // What is wrong with a stored object that is to be what the claim says.
  ghost function Misread(cfg: Config, objects: Objects, key: string, claim: Claim): Option<AdoptionError> {
    if key !in objects then Some(AdoptionError("staged_result_missing", true))
    else if !IsClaimed(objects[key].descriptor, key, claim) then Some(AdoptionError("staged_result_corrupt", false))
    else if |objects[key].content| != claim.size || |objects[key].content| > cfg.maxBytes then
      Some(AdoptionError("staged_result_size_mismatch", false))
    else if cfg.hash(objects[key].content) != claim.sha256 then Some(AdoptionError("staged_result_digest_mismatch", false))
    else None
  }

  predicate IsClaimed(d: Descriptor, key: string, claim: Claim) {
    d.key == key && d.sha256 == claim.sha256 && d.size == claim.size && d.mediaType == "application/json"
  }

  // The outcome of a delivery that ends before anything is written.
  ghost function EarlyVerdict(cfg: Config, objects: Objects, run: Run, claim: Claim): Option<Outcome>
    requires IsHex(claim.sha256, 64)
  {
    if cfg.schemaOf(run.kind) == None then Some(Refused(AdoptionError("staged_result_unsupported", false)))
    else if cfg.schemaOf(run.kind) != Some(claim.schemaId) then Some(Refused(AdoptionError("staged_result_schema_mismatch", false)))
    else if claim.size > cfg.maxBytes || (run.kind == "select" && claim.size > cfg.maxSelectBytes) then
      Some(Refused(AdoptionError("staged_result_size_mismatch", false)))
    else if run.state in {Cancelling, Cancelled} then Some(CancelledBefore(Cancelled))
    else
      match Misread(cfg, objects, StagedKeyOf(claim.sha256), claim)
      case Some(error) => Some(Refused(error))
      case None =>
        if !cfg.accepts(run.kind, run.spec, objects[StagedKeyOf(claim.sha256)].content)
        then Some(Refused(AdoptionError("staged_result_schema_mismatch", false))) else None
  }

  // The outcome of one that writes.
  ghost function LateVerdict(objects: Objects, run: Run, claim: Claim, payload: string): Outcome
    requires IsHex(claim.sha256, 64)
  {
    var key := FinalKey(run, claim.sha256);
    if key in objects && (objects[key].content != payload || !IsClaimed(objects[key].descriptor, key, claim)) then
      Refused(AdoptionError("artifact_store_integrity", false))
    else if run.requested then
      if run.state in {Queued, Provisioning, Running} then CancelledAtCommit else Refused(AdoptionError("persistence_unavailable", true))
    else if run.state == Succeeded then
      if run.result == Some(Adopted(claim.sha256, claim.size, key, "application/json", claim.schemaId)) then Committed(false)
      else Refused(AdoptionError("artifact_integrity_violation", false))
    else if run.state == Running then Committed(true)
    else Refused(AdoptionError("invalid_run_state", false))
  }

  ghost function Verdict(cfg: Config, objects: Objects, run: Run, claim: Claim): Outcome
    requires IsHex(claim.sha256, 64)
  {
    match EarlyVerdict(cfg, objects, run, claim)
    case Some(outcome) => outcome
    case None => LateVerdict(objects, run, claim, objects[StagedKeyOf(claim.sha256)].content)
  }

  // The run behind a delivery with this outcome.
  function RunAfter(run: Run, claim: Claim, outcome: Outcome): Run
    requires IsHex(claim.sha256, 64)
  {
    match outcome
    case Committed(true) =>
      run.(state := Succeeded,
           result := Some(Adopted(claim.sha256, claim.size, FinalKey(run, claim.sha256), "application/json", claim.schemaId)))
    case CancelledBefore(_) => run.(state := Cancelled)
    case CancelledAtCommit => run.(state := Cancelled)
    case _ => run
  }

  // The store behind a delivery: with bytes accepted and a free address, these bytes at this address.
  ghost function StoreAfter(cfg: Config, now: int, objects: Objects, run: Run, claim: Claim): Objects
    requires IsHex(claim.sha256, 64)
  {
    if EarlyVerdict(cfg, objects, run, claim).Some? then objects
    else StoreWith(objects, FinalKey(run, claim.sha256), objects[StagedKeyOf(claim.sha256)].content, claim.sha256, now)
  }

  function StoreWith(objects: Objects, key: string, payload: string, sha256: string, now: int): Objects {
    if key in objects then objects
    else objects[key := Stored(payload, Descriptor(key, |payload|, sha256, "application/json", now))]
  }

  lemma MisreadIs(cfg: Config, objects: Objects, key: string, claim: Claim)
    requires ValidClaim(claim) && ValidKey(key)
    ensures match Misread(cfg, objects, key, claim)
            case Some(error) => ReadVerified(cfg, objects, key, claim) == Failure(error)
            case None => key in objects && ReadVerified(cfg, objects, key, claim) == Success(objects[key].content)
  {
    hide ValidKey, IsHex;
  }

  lemma LoadIs(cfg: Config, run: Run, claim: Claim)
    ensures Load(cfg, run, claim) ==
              if cfg.schemaOf(run.kind) == None then Done(Refused(AdoptionError("staged_result_unsupported", false)))
              else if cfg.schemaOf(run.kind) != Some(claim.schemaId) then Done(Refused(AdoptionError("staged_result_schema_mismatch", false)))
              else if claim.size > cfg.maxBytes || (run.kind == "select" && claim.size > cfg.maxSelectBytes) then
                Done(Refused(AdoptionError("staged_result_size_mismatch", false)))
              else Loaded(run.state)
  {
  }

  lemma EarlyOutcome(cfg: Config, now: int, objects: Objects, id: string, run: Run, claim: Claim)
    requires ValidClaim(claim) && ValidKey(StagedKeyOf(claim.sha256))
    ensures var w := Sections(cfg, now, View(objects, run, Begun(id, claim)), 3);
            match EarlyVerdict(cfg, objects, run, claim)
            case Some(outcome) => w.attempt.phase == Done(outcome) && w.objects == objects && w.run == RunAfter(run, claim, outcome)
            case None =>
              && !IsCancelling(run.state) && StagedKeyOf(claim.sha256) in objects
              && SoundPayload(cfg, run, claim, objects[StagedKeyOf(claim.sha256)].content)
              && w == View(objects, run, Begun(id, claim).(phase := Read(objects[StagedKeyOf(claim.sha256)].content)))
  {
    LoadIs(cfg, run, claim);
    MisreadIs(cfg, objects, StagedKeyOf(claim.sha256), claim);
    hide ValidKey, IsHex, Load, ReadVerified, Sections, StagedKeyOf;
    var v := View(objects, run, Begun(id, claim));
    SectionsStep(cfg, now, v, 3);
    var v1 := Section(cfg, now, v);
    if v1.attempt.phase.Done? {
      DoneStays(cfg, now, v1, 2);
    } else if run.state in {Cancelling, Cancelled} {
      SectionsStep(cfg, now, v1, 2);
      SectionsStep(cfg, now, Section(cfg, now, v1), 1);
      SectionsEnd(cfg, now, Section(cfg, now, Section(cfg, now, v1)));
    } else if ReadStaged(cfg, objects, run, claim).Done? {
      SectionsStep(cfg, now, v1, 2);
      SectionsStep(cfg, now, Section(cfg, now, v1), 1);
      SectionsEnd(cfg, now, Section(cfg, now, Section(cfg, now, v1)));
    } else {
      SmoothReading(cfg, now, objects, id, run, claim, objects[StagedKeyOf(claim.sha256)].content);
    }
  }

  // Writing the bytes and reading them back: refused exactly when another object has the address.
  lemma WriteIs(cfg: Config, now: int, objects: Objects, run: Run, claim: Claim, payload: string)
    requires ValidClaim(claim) && SoundPayload(cfg, run, claim, payload) && ValidKey(FinalKey(run, claim.sha256))
    ensures var key := FinalKey(run, claim.sha256);
            var (objects', phase, created) := PutFinal(cfg, objects, now, run, claim, payload);
            if key in objects && (objects[key].content != payload || !IsClaimed(objects[key].descriptor, key, claim))
            then phase == Done(Refused(AdoptionError("artifact_store_integrity", false)))
            else phase == Written(payload) && VerifyFinal(cfg, objects', run, claim, payload) == Verified(payload)
    ensures PutFinal(cfg, objects, now, run, claim, payload).0 == StoreWith(objects, FinalKey(run, claim.sha256), payload, claim.sha256, now)
  {
    hide ValidKey, IsHex, FinalKey;
  }

  lemma CommitIs(run: Run, claim: Claim)
    requires ValidClaim(claim) && run.state !in {Cancelling, Cancelled}
    ensures Commit(run, Adopts(run, claim)).1 ==
              if run.requested then
                if run.state in {Queued, Provisioning, Running} then CancelledAtCommit else Refused(AdoptionError("persistence_unavailable", true))
              else if run.state == Succeeded then
                if run.result == Some(Adopted(claim.sha256, claim.size, FinalKey(run, claim.sha256), "application/json", claim.schemaId))
                then Committed(false) else Refused(AdoptionError("artifact_integrity_violation", false))
              else if run.state == Running then Committed(true)
              else Refused(AdoptionError("invalid_run_state", false))
    ensures Commit(run, Adopts(run, claim)).0 == RunAfter(run, claim, Commit(run, Adopts(run, claim)).1)
  {
    hide IsHex, FinalKey;
  }

  lemma LateOutcome(cfg: Config, now: int, objects: Objects, id: string, run: Run, claim: Claim, payload: string)
    requires ValidClaim(claim) && SoundPayload(cfg, run, claim, payload) && ValidKey(FinalKey(run, claim.sha256))
    requires run.state !in {Cancelling, Cancelled}
    ensures var w := Sections(cfg, now, View(objects, run, Begun(id, claim).(phase := Read(payload))), 4);
            var outcome := LateVerdict(objects, run, claim, payload);
            && w.attempt.phase == Done(outcome) && w.run == RunAfter(run, claim, outcome)
            && w.objects == StoreWith(objects, FinalKey(run, claim.sha256), payload, claim.sha256, now)
  {
    WriteIs(cfg, now, objects, run, claim, payload);
    CommitIs(run, claim);
    hide ValidKey, IsHex, FinalKey, PutFinal, VerifyFinal, Commit, Sections, SoundPayload, StoreWith;
    var v := View(objects, run, Begun(id, claim).(phase := Read(payload)));
    SectionsStep(cfg, now, v, 4);
    var w := Section(cfg, now, v);
    assert w.attempt.phase == Cleared(payload);
    var (objects', phase, created) := PutFinal(cfg, objects, now, run, claim, payload);
    if phase.Done? {
      FailedWriteEnds(cfg, now, w, phase);
    } else {
      SuccessfulWriteEnds(cfg, now, w);
    }
  }

  /** The outcome of a delivery that nothing disturbs, the first check that fails or the commit, and the run and the store behind it. */
  lemma DeliveryOutcome(cfg: Config, now: int, objects: Objects, id: string, run: Run, claim: Claim)
    requires ValidClaim(claim) && ValidRun(id, run)
    ensures var v := Delivery(cfg, now, objects, id, run, claim, false);
            && v.attempt.phase == Done(Verdict(cfg, objects, run, claim))
            && v.run == RunAfter(run, claim, Verdict(cfg, objects, run, claim))
            && v.objects == StoreAfter(cfg, now, objects, run, claim)
  {
    KeysAreValid(run.organization, run.project, run.id, claim.sha256);
    FinalKeyIs(run, claim.sha256);
    hide ValidKey, IsHex, FinalKey, ArtifactKey, Sections, EarlyVerdict, LateVerdict;
    EarlyOutcome(cfg, now, objects, id, run, claim);
    var w := Sections(cfg, now, View(objects, run, Begun(id, claim)), 3);
    match EarlyVerdict(cfg, objects, run, claim) {
      case Some(_) => DoneStays(cfg, now, w, SECTIONS - 3);
      case None => LateOutcome(cfg, now, objects, id, run, claim, objects[StagedKeyOf(claim.sha256)].content);
    }
  }

  class ArtifactAdoptionService {
    const cfg: Config
    const store: InMemoryObjectStore
    const chunkBytes: nat
    const stagingGrace: int
    var runs: map<string, Run>

    constructor (cfg: Config, store: InMemoryObjectStore, chunkBytes: nat, stagingGrace: int, runs: map<string, Run>)
      ensures this.cfg == cfg && this.store == store && this.chunkBytes == chunkBytes
      ensures this.stagingGrace == stagingGrace && this.runs == runs
    {
      this.cfg := cfg;
      this.store := store;
      this.chunkBytes := chunkBytes;
      this.stagingGrace := stagingGrace;
      this.runs := runs;
    }

    /** Reading chunk by chunk, stopping as soon as there is too much, gives the verified bytes. */
    method ReadAndVerify(key: string, claim: Claim) returns (r: Result<string, AdoptionError>)
      requires chunkBytes > 0
      ensures r == ReadVerified(cfg, store.objects, key, claim)
    {
      hide ValidKey, IsHex;
      var stream := store.OpenObject(key, chunkBytes);
      if stream.Failure? {
        return Failure(
          match stream.error
          case NotFound => AdoptionError("staged_result_missing", true)
          case Integrity => AdoptionError("staged_result_corrupt", false)
          case _ => AdoptionError("staging_store_unavailable", true));
      }
      var (descriptor, chunks) := stream.value;
      if !ClaimDescribes(descriptor, key, claim) {
        return Failure(AdoptionError("staged_result_corrupt", false));
      }
      ghost var content := store.objects[key].content;
      var size, digested, at := 0, "", 0;
      while at < |chunks|
        invariant at <= |chunks| && size == |digested| && size <= claim.size && size <= cfg.maxBytes
        invariant content == digested + Concat(chunks[at..])
      {
        assert chunks[at..][1..] == chunks[at + 1..];
        size := size + |chunks[at]|;
        if size > claim.size || size > cfg.maxBytes {
          return Failure(AdoptionError("staged_result_size_mismatch", false));
        }
        digested := digested + chunks[at];
        at := at + 1;
      }
      assert chunks[at..] == [] && content == digested;
      if size != claim.size {
        return Failure(AdoptionError("staged_result_size_mismatch", false));
      }
      if cfg.hash(digested) != claim.sha256 {
        return Failure(AdoptionError("staged_result_digest_mismatch", false));
      }
      return Success(digested);
    }
  
    // Writing the final object and reading it back, in a store that can fail to write.
    method PutAndReadBack(run: Run, claim: Claim, payload: string, now: int) returns (phase: Phase, created: bool)
      requires ValidClaim(claim) && chunkBytes > 0 && store.hash == cfg.hash
      modifies store`objects
      ensures store.failPut ==> store.objects == old(store.objects) && !created && phase.Done? && phase.outcome.Refused?
      ensures phase.Done? || phase == Verified(payload)
      ensures !store.failPut ==>
                var (objects, written, put) := PutFinal(cfg, old(store.objects), now, run, claim, payload);
                && store.objects == objects && created == put && (written == Written(payload) || written.Done?)
                && phase == (if written.Written? then VerifyFinal(cfg, objects, run, claim, payload) else written)
    {
      hide ValidKey, FinalKey, ReadVerified, Put, CheckPut;
      var key := FinalKey(run, claim.sha256);
      var put := store.PutObject(key, payload, claim.sha256, claim.mediaType, now);
      if put.Failure? {
        return if put.error == Integrity then Refuse("artifact_store_integrity", false) else Refuse("artifact_store_unavailable", true), false;
      }
      created := put.value.created;
      if !ClaimDescribes(put.value.descriptor, key, claim) {
        return Refuse("artifact_store_integrity", false), created;
      }
      var readBack := ReadAndVerify(key, claim);
      if readBack.Failure? {
        return Refuse(if readBack.error.retryable then "artifact_store_unavailable" else "artifact_store_integrity", readBack.error.retryable), created;
      }
      if readBack.value != payload {
        return Refuse("artifact_store_integrity", false), created;
      }
      return Verified(payload), created;
    }

    method ReadAndValidate(run: Run, claim: Claim) returns (phase: Phase)
      requires ValidClaim(claim) && chunkBytes > 0
      ensures phase == ReadStaged(cfg, store.objects, run, claim)
      ensures phase.Read? || (phase.Done? && phase.outcome.Refused?)
    {
      hide ReadVerified, StagedKeyOf, IsHex;
      var bytes := ReadAndVerify(StagedKeyOf(claim.sha256), claim);
      if bytes.Failure? {
        return Done(Refused(bytes.error));
      }
      if !cfg.accepts(run.kind, run.spec, bytes.value) {
        return Refuse("staged_result_schema_mismatch", false);
      }
      return Read(bytes.value);
    }

    method AcknowledgeCancellation(id: string) returns (outcome: Outcome)
      requires id in runs
      modifies this`runs
      ensures runs == old(runs)[id := Acknowledge(old(runs[id]))] && outcome == CancelledBefore(Acknowledge(old(runs[id])).state)
      ensures runs[id] == old(runs[id]).(state := if old(runs[id]).state in {Queued, Provisioning, Running, Cancelling, Cancelled} then Cancelled
                                                  else old(runs[id]).state)
    {
      var run := runs[id];
      if run.state in {Queued, Provisioning, Running} {
        run := run.(state := Cancelling);
      }
      if run.state == Cancelling {
        run := run.(state := Cancelled);
      }
      runs := runs[id := run];
      return CancelledBefore(run.state);
    }

    method CommitResult(id: string, adopted: Adopted) returns (outcome: Outcome)
      requires id in runs && IsHex(adopted.sha256, 64)
      modifies this`runs
      ensures var (run, result) := Commit(old(runs[id]), adopted); runs == old(runs)[id := run] && outcome == result
    {
      hide FinalKey;
      var run := runs[id];
      assert runs == runs[id := run];
      if adopted.key != FinalKey(run, adopted.sha256) {
        return Refused(AdoptionError("artifact_integrity_violation", false));
      }
      if IsCancelling(run.state) || run.requested {
        if !IsCancelling(run.state) {
          if Cancelling !in Transitions(run.state) {
            return Refused(AdoptionError("persistence_unavailable", true));
          }
          run := run.(state := Cancelling);
        }
        runs := runs[id := run.(state := Cancelled, requested := true)];
        return CancelledAtCommit;
      }
      if run.state == Succeeded {
        return if run.result == Some(adopted) then Committed(false) else Refused(AdoptionError("artifact_integrity_violation", false));
      }
      if run.state != Running {
        return Refused(AdoptionError("invalid_run_state", false));
      }
      runs := runs[id := run.(state := Succeeded, result := Some(adopted))];
      return Committed(true);
    }

    // Everything up to the second check for cancellation.
    method CheckAndRead(id: string, claim: Claim, now: int) returns (phase: Phase)
      requires ValidClaim(claim) && chunkBytes > 0 && id in runs
      modifies this`runs
      ensures var v := Sections(cfg, now, View(store.objects, old(runs[id]), Begun(id, claim)), 3);
              && v.objects == store.objects && runs == old(runs)[id := v.run]
              && v.attempt == Begun(id, claim).(phase := phase) && (phase.Done? || (phase.Read? && v.run == old(runs[id])))
              && (phase.Done? ==> !phase.outcome.Committed?)
    {
      hide IsHex, ReadStaged, Load, Acknowledge, Sections;
      var run := runs[id];
      assert runs == runs[id := run];
      ghost var v := View(store.objects, run, Begun(id, claim));
      SectionsStep(cfg, now, v, 3);
      v := Section(cfg, now, v);
      phase := Load(cfg, run, claim);
      LoadOutcome(cfg, run, claim);
      if phase.Done? {
        DoneStays(cfg, now, v, 2);
        return;
      }
      SectionsStep(cfg, now, v, 2);
      v := Section(cfg, now, v);
      SectionsStep(cfg, now, v, 1);
      v := Section(cfg, now, v);
      SectionsEnd(cfg, now, v);
      if IsCancelling(phase.seen) || IsCancelling(run.state) {
        var outcome := AcknowledgeCancellation(id);
        return Done(outcome);
      }
      phase := ReadAndValidate(run, claim);
    }

    // From the second check on.
    method CheckAndPublish(id: string, claim: Claim, payload: string, now: int) returns (outcome: Outcome)
      requires ValidClaim(claim) && chunkBytes > 0 && store.hash == cfg.hash && id in runs
      modifies this`runs, store`objects
      ensures !store.failPut ==>
                var v := Sections(cfg, now, View(old(store.objects), old(runs[id]), Begun(id, claim).(phase := Read(payload))), 4);
                && store.objects == v.objects && runs == old(runs)[id := v.run] && v.attempt.phase == Done(outcome)
      ensures store.failPut ==> store.objects == old(store.objects) && !outcome.Committed?
    {
      hide IsHex, VerifyFinal, PutFinal, Commit, Acknowledge, Sections, FinalKey, Load, ReadStaged;
      var run := runs[id];
      assert runs == runs[id := run];
      ghost var v := View(store.objects, run, Begun(id, claim).(phase := Read(payload)));
      SectionsStep(cfg, now, v, 4);
      v := Section(cfg, now, v);
      if IsCancelling(run.state) {
        SectionsStep(cfg, now, v, 3);
        DoneStays(cfg, now, Section(cfg, now, v), 2);
        outcome := AcknowledgeCancellation(id);
        return;
      }
      var written, created := PutAndReadBack(run, claim, payload, now);
      if store.failPut {
        return written.outcome;
      }
      if written.Done? {
        FailedWriteEnds(cfg, now, v, written);
        return written.outcome;
      }
      SuccessfulWriteEnds(cfg, now, v);
      outcome := CommitResult(id, Adopts(run, claim));
    }

    /**
     * A delivery through this program is the delivery of the step system: the same store, the same
     * run, the same outcome, whether or not a cancellation arrives while it reads.
     */
    method Adopt(id: string, claim: Claim, now: int, cancelMeanwhile: bool) returns (outcome: Outcome)
      requires chunkBytes > 0 && store.hash == cfg.hash
      modifies this`runs, store`objects
      ensures !ValidClaim(claim) ==> outcome == Refused(AdoptionError("staged_result_contract", false))
      ensures ValidClaim(claim) && id !in old(runs) ==> outcome == Refused(AdoptionError("run_not_found", false))
      ensures !ValidClaim(claim) || id !in old(runs) ==> runs == old(runs) && store.objects == old(store.objects)
      ensures ValidClaim(claim) && id in old(runs) && !store.failPut ==>
                var v := Delivery(cfg, now, old(store.objects), id, old(runs[id]), claim, cancelMeanwhile);
                && store.objects == v.objects && runs == old(runs)[id := v.run] && v.attempt.phase == Done(outcome)
      ensures ValidClaim(claim) && id in old(runs) && ValidRun(id, old(runs)[id]) && !store.failPut && !cancelMeanwhile ==>
                && outcome == Verdict(cfg, old(store.objects), old(runs)[id], claim)
                && runs == old(runs)[id := RunAfter(old(runs)[id], claim, outcome)]
                && store.objects == StoreAfter(cfg, now, old(store.objects), old(runs)[id], claim)
      ensures store.failPut ==> store.objects == old(store.objects) && !outcome.Committed?
    {
      hide IsHex, Section, Sections, RequestCancel, Verdict, RunAfter, StoreAfter, ValidRun;
      if ValidClaim(claim) && id in runs && ValidRun(id, runs[id]) {
        DeliveryOutcome(cfg, now, store.objects, id, runs[id], claim);
      }
      if !ValidClaim(claim) {
        return Refused(AdoptionError("staged_result_contract", false));
      }
      if id !in runs {
        return Refused(AdoptionError("run_not_found", false));
      }
      ghost var v := Sections(cfg, now, View(store.objects, runs[id], Begun(id, claim)), 3);
      var read := CheckAndRead(id, claim, now);
      if read.Done? {
        DoneStays(cfg, now, v, 4);
        return read.outcome;
      }
      if cancelMeanwhile {
        runs := runs[id := RequestCancel(runs[id])];
      }
      assert Interrupt(v, cancelMeanwhile) == View(store.objects, runs[id], Begun(id, claim).(phase := read));
      outcome := CheckAndPublish(id, claim, read.payload, now);
    }

    // One listed key: kept while it is young, deleted otherwise.
    method CleanKey(key: string, cutoff: int) returns (fate: Fate)
      requires ValidKey(key)
      modifies store`objects
      ensures store.objects == old(store.objects) - if IsExpired(old(store.objects), key, cutoff) && !store.failDelete then {key} else {}
      ensures fate == if key !in old(store.objects) then Absent
                      else if !IsExpired(old(store.objects), key, cutoff) then Deferred
                      else if store.failDelete then Undeletable else Deleted
    {
      hide ValidKey;
      var found := store.StatObject(key);
      if found.Failure? {
        return if found.error == NotFound then Absent else Undeletable;
      }
      if found.value.modifiedAt > cutoff {
        return Deferred;
      }
      var gone := store.DeleteObject(key);
      return if gone.Success? then Deleted else if gone.error == NotFound then Absent else Undeletable;
    }

    method CleanKeys(keys: seq<string>, cutoff: int) returns (deleted: nat, deferred: nat, failed: nat)
      requires forall key :: key in keys ==> ValidKey(key) && key in store.objects
      requires forall i, j :: 0 <= i < j < |keys| ==> keys[i] != keys[j]
      modifies store`objects
      ensures store.objects == old(store.objects) - Removed(old(store.objects), keys, cutoff, Always(store.failDelete))
      ensures var expired := CountExpired(old(store.objects), keys, cutoff);
              && deferred == |keys| - expired
              && if store.failDelete then deleted == 0 && failed == expired else deleted == expired && failed == 0
    {
      hide ValidKey, Removed, CountExpired;
      ghost var m, fails := store.objects, Always(store.failDelete);
      RemovedOnly(m, keys[..0], cutoff, fails);
      assert Removed(m, keys[..0], cutoff, fails) == {};
      deleted, deferred, failed := 0, 0, 0;
      for i := 0 to |keys|
        invariant store.objects == m - Removed(m, keys[..i], cutoff, fails)
        invariant deferred == i - CountExpired(m, keys[..i], cutoff)
        invariant var expired := CountExpired(m, keys[..i], cutoff);
                  if store.failDelete then deleted == 0 && failed == expired else deleted == expired && failed == 0
      {
        RemovedStep(m, keys, i, cutoff, fails);
        RemovedOnly(m, keys[..i], cutoff, fails);
        var fate := CleanKey(keys[i], cutoff);
        match fate
        case Deleted => deleted := deleted + 1;
        case Deferred => deferred := deferred + 1;
        case Undeletable => failed := failed + 1;
        case Absent =>
      }
      assert keys[..|keys|] == keys;
    }

    /**
     * One page of the sweep: its counters, the cursor for the next page, and exactly the expired
     * listed objects gone, unless deleting fails.
     */
    method CleanupStaging(cursor: Option<string>, limit: int, now: int) returns (r: Result<Report, Option<AdoptionError>>)
      requires forall key :: key in store.objects ==> ValidKey(key)
      modifies store`objects
      ensures !(1 <= limit <= 1_000) ==> r == Failure(None)
      ensures 1 <= limit <= 1_000 && !ValidListing(STAGING_PREFIX, limit, cursor) ==>
                r == Failure(Some(AdoptionError("staging_store_unavailable", true)))
      ensures r.Failure? ==> store.objects == old(store.objects)
      ensures r.Success? <==> 1 <= limit <= 1_000 && ValidListing(STAGING_PREFIX, limit, cursor)
      ensures r.Success? ==>
                var page, cutoff := Page(old(store.objects), cursor, limit), now - stagingGrace;
                var expired := CountExpired(old(store.objects), page, cutoff);
                && store.objects == old(store.objects) - Removed(old(store.objects), page, cutoff, Always(store.failDelete))
                && r.value == Report(|page|, if store.failDelete then 0 else expired, |page| - expired,
                                     if store.failDelete then expired else 0, NextCursor(page, limit))
      ensures forall key :: key in old(store.objects) && key !in store.objects ==>
                "staging/v1/sha256/" <= key && old(store.objects)[key].descriptor.modifiedAt <= now - stagingGrace
      ensures forall key :: key in store.objects ==> key in old(store.objects) && store.objects[key] == old(store.objects)[key]
    {
      hide ValidListing, Sorted, ValidKey, Removed, CountExpired, Remaining;
      if !(1 <= limit <= 1_000) {
        return Failure(None);
      }
      var cutoff := now - stagingGrace;
      var listed := store.ListKeys(STAGING_PREFIX, limit, cursor);
      if listed.Failure? {
        return Failure(Some(AdoptionError("staging_store_unavailable", true)));
      }
      var keys := listed.value;
      AscendingDistinct(Ahead(store.objects, cursor));
      PageIsPrefix(store.objects, cursor, limit);
      RemovedAreStaged(store.objects, cursor, limit, cutoff, Always(store.failDelete));
      var deleted, deferred, failed := CleanKeys(keys, cutoff);
      return Success(Report(|keys|, deleted, deferred, failed, if |keys| == limit then Some(keys[|keys| - 1]) else None));
    }
  }
}
