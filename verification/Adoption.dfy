/**
 * Adopting staged result bytes into run-owned storage, as steps that interleave: children staging
 * bytes, adoption attempts crashing and being retried, cancellation, and the staging sweep.
 */
module Adoption {
  import opened Wrappers
  import opened ObjectStore
  import opened Strings
  import opened ArtifactKeys
  import opened RunLifecycle

  const JSON_MEDIA := "application/json"

  // Facts about the installation: the digest, the result schema of a run kind, and whether a
  // payload parses as that schema and fits the run's spec.
  datatype Config = Config(
    hash: string -> string,
    schemaOf: string -> Option<string>,
    accepts: (string, string, string) -> bool,
    maxBytes: nat,
    maxSelectBytes: nat)

  // What a child claims about the bytes it staged.
  datatype Claim = Claim(schemaId: string, mediaType: string, size: nat, sha256: string)

  predicate ValidClaim(claim: Claim) {
    IsHex(claim.sha256, 64) && claim.mediaType == JSON_MEDIA && 1 <= claim.size <= 100 * 1024 * 1024
  }

  // The committed result of a run.
  datatype Adopted = Adopted(sha256: string, size: nat, key: string, mediaType: string, schemaId: string)

  datatype Run = Run(organization: string, project: string, id: string, kind: string, spec: string,
                     state: RunState, requested: bool, result: Option<Adopted>)

  datatype AdoptionError = AdoptionError(code: string, retryable: bool)

  datatype Outcome =
    | CancelledBefore(state: RunState)   // cancellation seen at one of the two checks
    | CancelledAtCommit
    | Committed(created: bool)
    | Refused(error: AdoptionError)
    | Crashed

  // Where an attempt stands: each step below runs from one await to the next.
  datatype Phase =
    | Claimed
    | Loaded(seen: RunState)
    | CancelSeen
    | Admitted
    | Read(payload: string)
    | Cleared(payload: string)
    | Written(payload: string)
    | Verified(payload: string)
    | Done(outcome: Outcome)

  // stored records whether this attempt has created the final item.
  datatype Attempt = Attempt(run: string, claim: Claim, phase: Phase, stored: bool)

  datatype State = State(now: int, objects: Objects, runs: map<string, Run>, attempts: seq<Attempt>)

  datatype Step =
    | Tick(now: int)
    | Stage(key: string, item: Stored)          // anything may happen inside the staging namespace
    | Sweep(key: string)
    | Begin(run: string, claim: Claim)
    | Advance(i: nat)
    | StoreFails(i: nat)
    | Crash(i: nat)
    | RequestCancellation(run: string)
    | Lifecycle(run: string, target: RunState)

  function FinalKey(run: Run, sha256: string): string
    requires IsHex(sha256, 64)
  {
    ArtifactKey(run.organization, run.project, Some(run.id), RUN_RESULT, sha256).value
  }

  function StagedKeyOf(sha256: string): string
    requires IsHex(sha256, 64)
  {
    StagedKey(sha256).value
  }

  // The result that committing a claim would record.
  function Adopts(run: Run, claim: Claim): Adopted
    requires IsHex(claim.sha256, 64)
  {
    Adopted(claim.sha256, claim.size, FinalKey(run, claim.sha256), claim.mediaType, claim.schemaId)
  }

  predicate IsCancelling(state: RunState) { state == Cancelling || state == Cancelled }

  // ---------- the sections of adopt ----------

  function Refuse(code: string, retryable: bool): Phase { Done(Refused(AdoptionError(code, retryable))) }

  // Reloading the run and checking the claim against it.
  function Load(cfg: Config, run: Run, claim: Claim): Phase {
    match cfg.schemaOf(run.kind)
    case None => Refuse("staged_result_unsupported", false)
    case Some(schema) =>
      if claim.schemaId != schema then Refuse("staged_result_schema_mismatch", false)
      else if claim.size > cfg.maxBytes then Refuse("staged_result_size_mismatch", false)
      else if run.kind == "select" && claim.size > cfg.maxSelectBytes then Refuse("staged_result_size_mismatch", false)
      else Loaded(run.state)
  }

  predicate ClaimDescribes(d: Descriptor, key: string, claim: Claim) {
    d.key == key && d.sha256 == claim.sha256 && d.size == claim.size && d.mediaType == claim.mediaType
  }

  // Reading an object and checking it against the claim, chunk by chunk in the program.
  function ReadVerified(cfg: Config, objects: Objects, key: string, claim: Claim): Result<string, AdoptionError> {
    match Stat(objects, key)
    case Failure(NotFound) => Failure(AdoptionError("staged_result_missing", true))
    case Failure(Integrity) => Failure(AdoptionError("staged_result_corrupt", false))
    case Failure(_) => Failure(AdoptionError("staging_store_unavailable", true))
    case Success(d) =>
      var content := objects[key].content;
      if !ClaimDescribes(d, key, claim) then Failure(AdoptionError("staged_result_corrupt", false))
      else if |content| != claim.size || |content| > cfg.maxBytes then Failure(AdoptionError("staged_result_size_mismatch", false))
      else if cfg.hash(content) != claim.sha256 then Failure(AdoptionError("staged_result_digest_mismatch", false))
      else Success(content)
  }

  function ReadStaged(cfg: Config, objects: Objects, run: Run, claim: Claim): Phase
    requires IsHex(claim.sha256, 64)
  {
    match ReadVerified(cfg, objects, StagedKeyOf(claim.sha256), claim)
    case Failure(e) => Done(Refused(e))
    case Success(payload) =>
      if cfg.accepts(run.kind, run.spec, payload) then Read(payload) else Refuse("staged_result_schema_mismatch", false)
  }

  // Writing the final item.
  function PutFinal(cfg: Config, objects: Objects, now: int, run: Run, claim: Claim, payload: string): (Objects, Phase, bool)
    requires IsHex(claim.sha256, 64)
  {
    var key := FinalKey(run, claim.sha256);
    var (objects', r) := Put(objects, cfg.hash, key, payload, claim.sha256, claim.mediaType, now);
    match r
    case Failure(Integrity) => (objects', Refuse("artifact_store_integrity", false), false)
    case Failure(_) => (objects', Refuse("artifact_store_unavailable", true), false)
    case Success(put) =>
      if !ClaimDescribes(put.descriptor, key, claim) then (objects', Refuse("artifact_store_integrity", false), put.created)
      else (objects', Written(payload), put.created)
  }

  // Reading the final object back.
  function VerifyFinal(cfg: Config, objects: Objects, run: Run, claim: Claim, payload: string): Phase
    requires IsHex(claim.sha256, 64)
  {
    match ReadVerified(cfg, objects, FinalKey(run, claim.sha256), claim)
    case Failure(e) => Refuse(if e.retryable then "artifact_store_unavailable" else "artifact_store_integrity", e.retryable)
    case Success(stored) => if stored == payload then Verified(payload) else Refuse("artifact_store_integrity", false)
  }

  // Reaching the cancelled state through legal transitions.
  function Acknowledge(run: Run): Run {
    if run.state in {Queued, Provisioning, Running, Cancelling} then run.(state := Cancelled) else run
  }

  // The database transaction that publishes the result.
  function Commit(run: Run, adopted: Adopted): (Run, Outcome)
    requires IsHex(adopted.sha256, 64)
  {
    if adopted.key != FinalKey(run, adopted.sha256) then (run, Refused(AdoptionError("artifact_integrity_violation", false)))
    else if IsCancelling(run.state) || run.requested then
      if IsCancelling(run.state) then (run.(state := Cancelled, requested := true), CancelledAtCommit)
      else if Cancelling in Transitions(run.state) then (run.(state := Cancelled), CancelledAtCommit)
      else (run, Refused(AdoptionError("persistence_unavailable", true)))
    else if run.state == Succeeded then
      if run.result == Some(adopted) then (run, Committed(false))
      else (run, Refused(AdoptionError("artifact_integrity_violation", false)))
    else if run.state != Running then (run, Refused(AdoptionError("invalid_run_state", false)))
    else (run.(state := Succeeded, result := Some(adopted)), Committed(true))
  }

  // What one attempt sees and changes: the store, its run, and where it stands.
  datatype View = View(objects: Objects, run: Run, attempt: Attempt)

  function Section(cfg: Config, now: int, v: View): View
    requires ValidClaim(v.attempt.claim)
  {
    var run, a := v.run, v.attempt;
    match a.phase
    case Claimed => v.(attempt := a.(phase := Load(cfg, run, a.claim)))
    case Loaded(seen) =>
      v.(attempt := a.(phase := if IsCancelling(seen) || IsCancelling(run.state) then CancelSeen else Admitted))
    case CancelSeen =>
      v.(run := Acknowledge(run), attempt := a.(phase := Done(CancelledBefore(Acknowledge(run).state))))
    case Admitted => v.(attempt := a.(phase := ReadStaged(cfg, v.objects, run, a.claim)))
    case Read(payload) => v.(attempt := a.(phase := if IsCancelling(run.state) then CancelSeen else Cleared(payload)))
    case Cleared(payload) =>
      var (objects, phase, created) := PutFinal(cfg, v.objects, now, run, a.claim, payload);
      v.(objects := objects, attempt := a.(phase := phase, stored := a.stored || created))
    case Written(payload) => v.(attempt := a.(phase := VerifyFinal(cfg, v.objects, run, a.claim, payload)))
    case Verified(payload) =>
      var (run', outcome) := Commit(run, Adopts(run, a.claim));
      v.(run := run', attempt := a.(phase := Done(outcome)))
    case Done(_) => v
  }

  // One section of the i-th attempt.
  function AdvanceAttempt(cfg: Config, s: State, i: nat): State
    requires i < |s.attempts| && ValidClaim(s.attempts[i].claim)
  {
    var a := s.attempts[i];
    if a.run in s.runs then
      var v := Section(cfg, s.now, View(s.objects, s.runs[a.run], a));
      s.(objects := v.objects, runs := s.runs[a.run := v.run], attempts := s.attempts[i := v.attempt])
    else if a.phase.Done? then s
    else s.(attempts := s.attempts[i := a.(phase := Refuse("run_not_found", false))])
  }

  // The next state; a step that is not enabled changes nothing.
  function Next(cfg: Config, s: State, step: Step): State {
    match step
    case Tick(now) => if now > s.now then s.(now := now) else s
    case Stage(key, item) =>
      if STAGING_PREFIX <= key then s.(objects := s.objects[key := item]) else s
    case Sweep(key) => if STAGING_PREFIX <= key then s.(objects := s.objects - {key}) else s
    case Begin(run, claim) =>
      if ValidClaim(claim) then s.(attempts := s.attempts + [Attempt(run, claim, Claimed, false)]) else s
    case Advance(i) => if i < |s.attempts| && ValidClaim(s.attempts[i].claim) then AdvanceAttempt(cfg, s, i) else s
    case StoreFails(i) =>
      if i < |s.attempts| && !s.attempts[i].phase.Done?
      then s.(attempts := s.attempts[i := s.attempts[i].(phase := Refuse("artifact_store_unavailable", true))]) else s
    case Crash(i) =>
      if i < |s.attempts| && !s.attempts[i].phase.Done?
      then s.(attempts := s.attempts[i := s.attempts[i].(phase := Done(Crashed))]) else s
    case RequestCancellation(run) =>
      if run in s.runs && Cancelling in Transitions(s.runs[run].state)
      then s.(runs := s.runs[run := s.runs[run].(state := Cancelling, requested := true)]) else s
    case Lifecycle(run, target) =>
      // Only the commit above makes a run of these kinds succeed.
      if run in s.runs && target in Transitions(s.runs[run].state) && target != Succeeded
      then s.(runs := s.runs[run := s.runs[run].(state := target)]) else s
  }

  function Execute(cfg: Config, s: State, steps: seq<Step>): State
    decreases |steps|
  {
    if steps == [] then s else Execute(cfg, Next(cfg, s, steps[0]), steps[1..])
  }

  // ---------- the invariant ----------

  predicate ValidRun(id: string, run: Run) {
    run.id == id && IsHex(run.organization, 32) && IsHex(run.project, 32) && IsHex(run.id, 32)
  }

  // Within the limits for results of this kind.
  predicate Fits(cfg: Config, run: Run, size: nat) {
    size <= cfg.maxBytes && (run.kind == "select" ==> size <= cfg.maxSelectBytes)
  }

  // An object that holds what its descriptor says, and that the run's schema and spec accept.
  predicate SoundObject(cfg: Config, run: Run, key: string, item: Stored) {
    var d := item.descriptor;
    && IsHex(d.sha256, 64) && d.key == key && key == FinalKey(run, d.sha256)
    && cfg.hash(item.content) == d.sha256 && d.size == |item.content| && d.mediaType == JSON_MEDIA
    && Fits(cfg, run, |item.content|)
    && cfg.accepts(run.kind, run.spec, item.content)
  }

  // The committed result names the run's own address, where sound bytes of that size and digest are.
  predicate SoundResult(cfg: Config, objects: Objects, run: Run) {
    run.result.Some? ==>
      && run.state == Succeeded
      && run.result.value.key in objects
      && SoundObject(cfg, run, run.result.value.key, objects[run.result.value.key])
      && objects[run.result.value.key].descriptor.sha256 == run.result.value.sha256
      && objects[run.result.value.key].descriptor.size == run.result.value.size
      && cfg.schemaOf(run.kind) == Some(run.result.value.schemaId)
      && run.result.value.mediaType == JSON_MEDIA
  }

  predicate SoundPayload(cfg: Config, run: Run, claim: Claim, payload: string) {
    && cfg.hash(payload) == claim.sha256 && |payload| == claim.size && Fits(cfg, run, |payload|)
    && cfg.accepts(run.kind, run.spec, payload) && cfg.schemaOf(run.kind) == Some(claim.schemaId)
  }

  predicate StoredPayload(objects: Objects, run: Run, claim: Claim, payload: string)
    requires IsHex(claim.sha256, 64)
  {
    var key := FinalKey(run, claim.sha256);
    key in objects && objects[key].content == payload && ClaimDescribes(objects[key].descriptor, key, claim)
  }

  // After cancellation has been seen the run can only be cancelled or fail.
  predicate IsStopping(state: RunState) { state in {Cancelling, Cancelled, Failed} }

  predicate HasPayload(phase: Phase) { phase.Read? || phase.Cleared? || phase.Written? || phase.Verified? }

  predicate SoundAttempt(cfg: Config, objects: Objects, run: Run, a: Attempt) {
    && ValidClaim(a.claim)
    && (a.phase.Loaded? || a.phase.Admitted? ==> cfg.schemaOf(run.kind) == Some(a.claim.schemaId) && Fits(cfg, run, a.claim.size))
    && (a.phase.Loaded? && IsCancelling(a.phase.seen) ==> IsStopping(run.state))
    && (a.phase.CancelSeen? ==> IsStopping(run.state))
    && (HasPayload(a.phase) ==> SoundPayload(cfg, run, a.claim, a.phase.payload))
    && (a.phase.Written? || a.phase.Verified? ==> StoredPayload(objects, run, a.claim, a.phase.payload))
    && (a.stored ==> a.phase.Written? || a.phase.Verified? || a.phase.Done?)
    && (a.phase.Done? ==> SoundOutcome(run, a))
  }

  predicate SoundOutcome(run: Run, a: Attempt)
    requires a.phase.Done?
  {
    match a.phase.outcome
    case CancelledBefore(state) => !a.stored && state in {Cancelled, Failed} && IsStopping(run.state) && run.result.None?
    case CancelledAtCommit => IsStopping(run.state) && run.result.None?
    case Committed(_) => run.result.Some? && run.result.value.sha256 == a.claim.sha256
    case Refused(_) => true
    case Crashed => true
  }

  predicate CreatedResult(a: Attempt) { a.phase == Done(Committed(true)) }

  predicate AtMostOneCreator(attempts: seq<Attempt>) {
    forall i, j :: 0 <= i < j < |attempts| && attempts[i].run == attempts[j].run ==>
      !(CreatedResult(attempts[i]) && CreatedResult(attempts[j]))
  }

  ghost predicate Owned(cfg: Config, runs: map<string, Run>, key: string, item: Stored) {
    exists id :: id in runs && SoundObject(cfg, runs[id], key, item)
  }

  predicate SoundRun(cfg: Config, objects: Objects, id: string, run: Run) {
    ValidRun(id, run) && SoundResult(cfg, objects, run)
  }

  predicate SoundRuns(cfg: Config, objects: Objects, runs: map<string, Run>) {
    forall id :: id in runs ==> SoundRun(cfg, objects, id, runs[id])
  }

  ghost predicate SoundFinals(cfg: Config, objects: Objects, runs: map<string, Run>) {
    forall key :: key in objects && !(STAGING_PREFIX <= key) ==> Owned(cfg, runs, key, objects[key])
  }

  predicate SoundAttempts(cfg: Config, objects: Objects, runs: map<string, Run>, attempts: seq<Attempt>) {
    forall i :: 0 <= i < |attempts| ==> IsSound(cfg, objects, runs, attempts[i])
  }

  // An attempt on a run that does not exist never gets beyond being refused.
  predicate IsSound(cfg: Config, objects: Objects, runs: map<string, Run>, a: Attempt) {
    if a.run in runs then SoundAttempt(cfg, objects, runs[a.run], a)
    else ValidClaim(a.claim) && !a.stored && (a.phase.Claimed? || (a.phase.Done? && (a.phase.outcome.Refused? || a.phase.outcome.Crashed?)))
  }

  ghost predicate Inv(cfg: Config, s: State) {
    && SoundRuns(cfg, s.objects, s.runs)
    && SoundFinals(cfg, s.objects, s.runs)
    && SoundAttempts(cfg, s.objects, s.runs, s.attempts)
    && AtMostOneCreator(s.attempts)
  }

  // Identity of a run: everything but its state, its cancellation mark and its result.
  predicate SameRun(a: Run, b: Run) {
    a.organization == b.organization && a.project == b.project && a.id == b.id && a.kind == b.kind && a.spec == b.spec
  }

  predicate KeepsRun(a: Run, b: Run) {
    && SameRun(a, b)
    && (a.result.Some? ==> b.result == a.result)
    && (a.state == Succeeded ==> b.state == Succeeded)
    && (IsStopping(a.state) ==> IsStopping(b.state))
    && (a.requested ==> b.requested && b.result == a.result)
    && (a.result != b.result ==> !IsStopping(a.state) && a.state != Succeeded && b.state == Succeeded)
  }

  ghost predicate KeepsFinals(a: Objects, b: Objects) {
    forall key :: key in a && !(STAGING_PREFIX <= key) ==> key in b && b[key] == a[key]
  }

  predicate KeepsRuns(a: map<string, Run>, b: map<string, Run>) {
    a.Keys == b.Keys && forall id :: id in a ==> KeepsRun(a[id], b[id])
  }

  predicate KeepsAttempt(a: Attempt, b: Attempt) {
    && b.run == a.run && b.claim == a.claim
    && (a.phase.Done? ==> b == a)
    && (a.stored ==> b.stored)
  }

  predicate KeepsAttempts(a: seq<Attempt>, b: seq<Attempt>) {
    |a| <= |b| && forall i :: 0 <= i < |a| ==> KeepsAttempt(a[i], b[i])
  }

  // What no step takes back: final objects, results, success, cancellation and finished attempts.
  ghost predicate Keeps(s: State, t: State) {
    KeepsFinals(s.objects, t.objects) && KeepsRuns(s.runs, t.runs) && KeepsAttempts(s.attempts, t.attempts)
  }

  // ---------- what a change elsewhere leaves sound ----------

  lemma FinalKeyOutsideStaging(run: Run, sha256: string)
    requires IsHex(sha256, 64)
    ensures !(STAGING_PREFIX <= FinalKey(run, sha256))
  {
    hide IsHex;
    NamespacesDisjoint(run.organization, run.project, Some(run.id), RUN_RESULT, sha256);
  }

  lemma AttemptCarries(cfg: Config, objects: Objects, objects': Objects, run: Run, run': Run, a: Attempt)
    requires SoundAttempt(cfg, objects, run, a) && KeepsFinals(objects, objects') && KeepsRun(run, run')
    ensures SoundAttempt(cfg, objects', run', a)
  {
    hide IsHex, ArtifactKey;
    FinalKeyOutsideStaging(run, a.claim.sha256);
  }

  lemma ResultCarries(cfg: Config, objects: Objects, objects': Objects, id: string, run: Run)
    requires SoundRun(cfg, objects, id, run) && KeepsFinals(objects, objects')
    ensures SoundRun(cfg, objects', id, run)
  {
    hide IsHex, ArtifactKey;
    if run.result.Some? {
      FinalKeyOutsideStaging(run, objects[run.result.value.key].descriptor.sha256);
    }
  }

  lemma RunsCarry(cfg: Config, objects: Objects, objects': Objects, runs: map<string, Run>)
    requires SoundRuns(cfg, objects, runs) && KeepsFinals(objects, objects')
    ensures SoundRuns(cfg, objects', runs)
  {
    hide SoundRun;
    forall id | id in runs ensures SoundRun(cfg, objects', id, runs[id]) {
      ResultCarries(cfg, objects, objects', id, runs[id]);
    }
  }

  lemma OwnedCarries(cfg: Config, runs: map<string, Run>, runs': map<string, Run>, key: string, item: Stored)
    requires Owned(cfg, runs, key, item) && KeepsRuns(runs, runs')
    ensures Owned(cfg, runs', key, item)
  {
    hide IsHex, ArtifactKey;
    var id :| id in runs && SoundObject(cfg, runs[id], key, item);
    assert KeepsRun(runs[id], runs'[id]);
    assert SoundObject(cfg, runs'[id], key, item);
  }

  lemma AttemptsCarry(cfg: Config, objects: Objects, objects': Objects, runs: map<string, Run>, runs': map<string, Run>,
                      attempts: seq<Attempt>)
    requires SoundAttempts(cfg, objects, runs, attempts) && KeepsFinals(objects, objects') && KeepsRuns(runs, runs')
    ensures SoundAttempts(cfg, objects', runs', attempts)
  {
    hide SoundAttempt, KeepsRun, KeepsFinals;
    forall i | 0 <= i < |attempts| ensures IsSound(cfg, objects', runs', attempts[i]) {
      var a := attempts[i];
      assert IsSound(cfg, objects, runs, a);
      if a.run in runs {
        AttemptCarries(cfg, objects, objects', runs[a.run], runs'[a.run], a);
      }
    }
  }

  // Changes of the store and the runs that leave both sound leave the whole state sound.
  lemma CarryAll(cfg: Config, s: State, t: State)
    requires Inv(cfg, s) && KeepsFinals(s.objects, t.objects) && KeepsRuns(s.runs, t.runs)
    requires forall id :: id in t.runs && t.runs[id] != s.runs[id] ==> SoundRun(cfg, s.objects, id, t.runs[id])
    requires forall key :: key in t.objects && !(STAGING_PREFIX <= key) && key !in s.objects ==> Owned(cfg, t.runs, key, t.objects[key])
    ensures SoundRuns(cfg, t.objects, t.runs)
    ensures SoundFinals(cfg, t.objects, t.runs)
    ensures SoundAttempts(cfg, t.objects, t.runs, s.attempts)
  {
    hide SoundRun, Owned, KeepsRun, IsSound;
    assert forall id :: id in s.runs ==> SoundRun(cfg, s.objects, id, s.runs[id]);
    assert SoundRuns(cfg, s.objects, t.runs);
    RunsCarry(cfg, s.objects, t.objects, t.runs);
    AttemptsCarry(cfg, s.objects, t.objects, s.runs, t.runs, s.attempts);
    forall key | key in t.objects && !(STAGING_PREFIX <= key) ensures Owned(cfg, t.runs, key, t.objects[key]) {
      if key in s.objects {
        OwnedCarries(cfg, s.runs, t.runs, key, s.objects[key]);
      }
    }
  }

  // A run that has a creator has a result.
  lemma CreatorHasResult(cfg: Config, s: State, i: nat)
    requires Inv(cfg, s) && i < |s.attempts| && CreatedResult(s.attempts[i])
    ensures s.attempts[i].run in s.runs && s.runs[s.attempts[i].run].result.Some?
  {
    hide SoundRuns, SoundFinals, AtMostOneCreator;
    assert IsSound(cfg, s.objects, s.runs, s.attempts[i]);
  }

  lemma OneCreatorKept(cfg: Config, s: State, i: nat, a: Attempt)
    requires Inv(cfg, s) && i < |s.attempts| && KeepsAttempt(s.attempts[i], a)
    requires CreatedResult(a) && a.run in s.runs ==> s.runs[a.run].result.None? || a == s.attempts[i]
    requires CreatedResult(a) ==> a.run in s.runs
    ensures AtMostOneCreator(s.attempts[i := a])
  {
    hide SoundRuns, SoundFinals, SoundAttempts, CreatedResult;
    var attempts := s.attempts[i := a];
    forall j, k | 0 <= j < k < |attempts| && attempts[j].run == attempts[k].run && CreatedResult(attempts[j]) && CreatedResult(attempts[k])
      ensures false
    {
      if j != i { CreatorHasResult(cfg, s, j); }
      if k != i { CreatorHasResult(cfg, s, k); }
    }
  }

  // One attempt moves on, the store and the runs changing as allowed.
  lemma AttemptMoves(cfg: Config, s: State, t: State, i: nat, a: Attempt)
    requires Inv(cfg, s) && i < |s.attempts| && t.attempts == s.attempts[i := a] && KeepsAttempt(s.attempts[i], a)
    requires KeepsFinals(s.objects, t.objects) && KeepsRuns(s.runs, t.runs)
    requires forall id :: id in t.runs && t.runs[id] != s.runs[id] ==> SoundRun(cfg, s.objects, id, t.runs[id])
    requires forall key :: key in t.objects && !(STAGING_PREFIX <= key) && key !in s.objects ==> Owned(cfg, t.runs, key, t.objects[key])
    requires IsSound(cfg, t.objects, t.runs, a)
    requires CreatedResult(a) ==> a.run in s.runs && (s.runs[a.run].result.None? || a == s.attempts[i])
    ensures Inv(cfg, t) && Keeps(s, t)
  {
    hide SoundRun, Owned, KeepsRuns, KeepsFinals, IsSound, CreatedResult;
    CarryAll(cfg, s, t);
    OneCreatorKept(cfg, s, i, a);
    assert forall j :: 0 <= j < |t.attempts| && j != i ==> t.attempts[j] == s.attempts[j] && IsSound(cfg, t.objects, t.runs, s.attempts[j]);
    assert SoundAttempts(cfg, t.objects, t.runs, t.attempts);
    assert KeepsAttempts(s.attempts, t.attempts);
  }

  // ---------- each section keeps the invariant ----------

  lemma VerifiedBytes(cfg: Config, objects: Objects, key: string, claim: Claim)
    requires ReadVerified(cfg, objects, key, claim).Success?
    ensures var content := ReadVerified(cfg, objects, key, claim).value;
            && key in objects && objects[key].content == content && ClaimDescribes(objects[key].descriptor, key, claim)
            && cfg.hash(content) == claim.sha256 && |content| == claim.size && |content| <= cfg.maxBytes
  {
    hide ValidKey;
  }

  lemma LoadSound(cfg: Config, objects: Objects, run: Run, a: Attempt)
    requires SoundAttempt(cfg, objects, run, a) && a.phase.Claimed?
    ensures SoundAttempt(cfg, objects, run, a.(phase := Load(cfg, run, a.claim)))
    ensures Load(cfg, run, a.claim) != Done(Committed(true))
  {
  }

  lemma FirstCheckSound(cfg: Config, objects: Objects, run: Run, a: Attempt)
    requires SoundAttempt(cfg, objects, run, a) && a.phase.Loaded?
    ensures SoundAttempt(cfg, objects, run, a.(phase := if IsCancelling(a.phase.seen) || IsCancelling(run.state) then CancelSeen else Admitted))
  {
  }

  lemma SecondCheckSound(cfg: Config, objects: Objects, run: Run, a: Attempt)
    requires SoundAttempt(cfg, objects, run, a) && a.phase.Read?
    ensures SoundAttempt(cfg, objects, run, a.(phase := if IsCancelling(run.state) then CancelSeen else Cleared(a.phase.payload)))
  {
  }

  lemma ReadStagedSound(cfg: Config, objects: Objects, run: Run, a: Attempt)
    requires SoundAttempt(cfg, objects, run, a) && a.phase.Admitted?
    ensures SoundAttempt(cfg, objects, run, a.(phase := ReadStaged(cfg, objects, run, a.claim)))
    ensures ReadStaged(cfg, objects, run, a.claim) != Done(Committed(true))
  {
    hide ReadVerified, IsHex, StagedKey;
    var key := StagedKeyOf(a.claim.sha256);
    if ReadVerified(cfg, objects, key, a.claim).Success? {
      VerifiedBytes(cfg, objects, key, a.claim);
    }
  }

  lemma VerifyFinalSound(cfg: Config, objects: Objects, run: Run, a: Attempt)
    requires SoundAttempt(cfg, objects, run, a) && a.phase.Written?
    ensures SoundAttempt(cfg, objects, run, a.(phase := VerifyFinal(cfg, objects, run, a.claim, a.phase.payload)))
    ensures VerifyFinal(cfg, objects, run, a.claim, a.phase.payload) != Done(Committed(true))
  {
    hide ReadVerified, IsHex, FinalKey;
    var key := FinalKey(run, a.claim.sha256);
    if ReadVerified(cfg, objects, key, a.claim).Success? {
      VerifiedBytes(cfg, objects, key, a.claim);
    }
  }

  lemma PutFinalSound(cfg: Config, s: State, run: Run, a: Attempt)
    requires SoundAttempt(cfg, s.objects, run, a) && a.phase.Cleared?
    ensures var (objects, phase, created) := PutFinal(cfg, s.objects, s.now, run, a.claim, a.phase.payload);
            && KeepsFinals(s.objects, objects)
            && (forall key :: key in objects && key !in s.objects ==> SoundObject(cfg, run, key, objects[key]))
            && SoundAttempt(cfg, objects, run, a.(phase := phase, stored := a.stored || created))
            && phase != Done(Committed(true))
  {
    hide IsHex, ArtifactKey;
    var key := FinalKey(run, a.claim.sha256);
    PutIsWriteOnce(s.objects, cfg.hash, key, a.phase.payload, a.claim.sha256, a.claim.mediaType, s.now);
    NewObject(s.objects, cfg.hash, key, a.phase.payload, a.claim.sha256, a.claim.mediaType, s.now);
    hide Put;
  }

  // The object a put creates is the one it was given.
  lemma NewObject(m: Objects, hash: string -> string, key: string, content: string, sha256: string, mediaType: string, now: int)
    ensures var (m', r) := Put(m, hash, key, content, sha256, mediaType, now);
            && (r.Success? ==> SameObject(r.value.descriptor, Descriptor(key, |content|, sha256, mediaType, now)))
            && forall k :: k in m' && k !in m ==> k == key && m'[k] == Stored(content, Descriptor(key, |content|, sha256, mediaType, now))
  {
    hide ValidKey, IsHex, ValidDescriptor;
  }

  lemma CommitSound(cfg: Config, objects: Objects, id: string, run: Run, a: Attempt)
    requires SoundRun(cfg, objects, id, run) && SoundAttempt(cfg, objects, run, a) && a.phase.Verified?
    ensures var (run', outcome) := Commit(run, Adopts(run, a.claim));
            && SoundRun(cfg, objects, id, run') && KeepsRun(run, run')
            && SoundAttempt(cfg, objects, run', a.(phase := Done(outcome)))
            && (outcome == Committed(true) ==> run.result.None?)
  {
    hide IsHex, ArtifactKey;
  }

  lemma AcknowledgeSound(cfg: Config, objects: Objects, id: string, run: Run, a: Attempt)
    requires SoundRun(cfg, objects, id, run) && SoundAttempt(cfg, objects, run, a) && a.phase.CancelSeen?
    ensures var run' := Acknowledge(run);
            && SoundRun(cfg, objects, id, run') && KeepsRun(run, run')
            && SoundAttempt(cfg, objects, run', a.(phase := Done(CancelledBefore(run'.state))))
  {
    hide IsHex, ArtifactKey;
  }

  // The attempt moves on and nothing else changes.
  lemma PhaseMoves(cfg: Config, s: State, i: nat, phase: Phase)
    requires Inv(cfg, s) && i < |s.attempts| && (s.attempts[i].phase.Done? ==> phase == s.attempts[i].phase)
    requires IsSound(cfg, s.objects, s.runs, s.attempts[i].(phase := phase)) && phase != Done(Committed(true))
    ensures Inv(cfg, s.(attempts := s.attempts[i := s.attempts[i].(phase := phase)]))
    ensures Keeps(s, s.(attempts := s.attempts[i := s.attempts[i].(phase := phase)]))
  {
    hide SoundRuns, SoundFinals, SoundAttempts, AtMostOneCreator, SoundAttempt, Owned, KeepsAttempts, IsSound;
    AttemptMoves(cfg, s, s.(attempts := s.attempts[i := s.attempts[i].(phase := phase)]), i, s.attempts[i].(phase := phase));
  }

  lemma PutMoves(cfg: Config, s: State, i: nat)
    requires Inv(cfg, s) && i < |s.attempts| && s.attempts[i].run in s.runs && s.attempts[i].phase.Cleared?
    requires ValidClaim(s.attempts[i].claim)
    ensures Inv(cfg, AdvanceAttempt(cfg, s, i)) && Keeps(s, AdvanceAttempt(cfg, s, i))
  {
    hide SoundObject, SoundAttempt, PutFinal, IsHex, Commit, Load, ReadStaged, VerifyFinal, SoundRun, AtMostOneCreator, KeepsFinals;
    var a := s.attempts[i];
    assert IsSound(cfg, s.objects, s.runs, a);
    var run := s.runs[a.run];
    var t := AdvanceAttempt(cfg, s, i);
    PutFinalSound(cfg, s, run, a);
    RunKept(s, i);
    forall key | key in t.objects && !(STAGING_PREFIX <= key) && key !in s.objects ensures Owned(cfg, t.runs, key, t.objects[key]) {
      assert SoundObject(cfg, t.runs[a.run], key, t.objects[key]);
    }
    AttemptMoves(cfg, s, t, i, t.attempts[i]);
  }

  lemma RunMoves(cfg: Config, s: State, i: nat)
    requires Inv(cfg, s) && i < |s.attempts| && s.attempts[i].run in s.runs
    requires s.attempts[i].phase.CancelSeen? || s.attempts[i].phase.Verified?
    requires ValidClaim(s.attempts[i].claim)
    ensures Inv(cfg, AdvanceAttempt(cfg, s, i)) && Keeps(s, AdvanceAttempt(cfg, s, i))
  {
    hide SoundAttempt, PutFinal, IsHex, Commit, Acknowledge, Load, ReadStaged, VerifyFinal, SoundRun, SoundFinals, AtMostOneCreator, Adopts;
    var a := s.attempts[i];
    assert IsSound(cfg, s.objects, s.runs, a);
    assert SoundRun(cfg, s.objects, a.run, s.runs[a.run]);
    if a.phase.CancelSeen? {
      AcknowledgeSound(cfg, s.objects, a.run, s.runs[a.run], a);
    } else {
      CommitSound(cfg, s.objects, a.run, s.runs[a.run], a);
    }
    var t := AdvanceAttempt(cfg, s, i);
    AttemptMoves(cfg, s, t, i, t.attempts[i]);
  }

  lemma KeepsItself(s: State)
    ensures forall now :: Keeps(s, s.(now := now))
  {
  }

  // A section that leaves the run alone.
  lemma RunKept(s: State, i: nat)
    requires i < |s.attempts| && s.attempts[i].run in s.runs
    ensures s.runs[s.attempts[i].run := s.runs[s.attempts[i].run]] == s.runs
  {
  }

  lemma AdvanceSound(cfg: Config, s: State, i: nat)
    requires Inv(cfg, s) && i < |s.attempts| && ValidClaim(s.attempts[i].claim)
    ensures Inv(cfg, AdvanceAttempt(cfg, s, i)) && Keeps(s, AdvanceAttempt(cfg, s, i))
  {
    hide SoundAttempt, PutFinal, IsHex, Commit, Acknowledge, Load, ReadStaged, VerifyFinal, SoundRun, SoundFinals, AtMostOneCreator, Adopts;
    var a := s.attempts[i];
    assert IsSound(cfg, s.objects, s.runs, a);
    if a.phase.Done? {
      if a.run in s.runs {
        RunKept(s, i);
      }
      assert s.attempts[i := a] == s.attempts;
      KeepsItself(s);
      assert Keeps(s, s.(now := s.now));
    } else if a.run !in s.runs {
      PhaseMoves(cfg, s, i, Refuse("run_not_found", false));
    } else {
      var run := s.runs[a.run];
      RunKept(s, i);
      match a.phase
      case Claimed =>
        LoadSound(cfg, s.objects, run, a);
        PhaseMoves(cfg, s, i, Load(cfg, run, a.claim));
      case Loaded(seen) =>
        FirstCheckSound(cfg, s.objects, run, a);
        PhaseMoves(cfg, s, i, if IsCancelling(seen) || IsCancelling(run.state) then CancelSeen else Admitted);
      case CancelSeen => RunMoves(cfg, s, i);
      case Admitted =>
        ReadStagedSound(cfg, s.objects, run, a);
        PhaseMoves(cfg, s, i, ReadStaged(cfg, s.objects, run, a.claim));
      case Read(payload) =>
        SecondCheckSound(cfg, s.objects, run, a);
        PhaseMoves(cfg, s, i, if IsCancelling(run.state) then CancelSeen else Cleared(payload));
      case Cleared(_) => PutMoves(cfg, s, i);
      case Written(payload) =>
        VerifyFinalSound(cfg, s.objects, run, a);
        PhaseMoves(cfg, s, i, VerifyFinal(cfg, s.objects, run, a.claim, payload));
      case Verified(_) => RunMoves(cfg, s, i);
    }
  }

  // The store changing inside the staging namespace only.
  lemma StagingMoves(cfg: Config, s: State, objects: Objects)
    requires Inv(cfg, s)
    requires forall key :: !(STAGING_PREFIX <= key) ==> (key in objects <==> key in s.objects)
    requires forall key :: !(STAGING_PREFIX <= key) && key in objects ==> objects[key] == s.objects[key]
    ensures Inv(cfg, s.(objects := objects)) && Keeps(s, s.(objects := objects))
  {
    hide SoundRun, Owned, IsSound, AtMostOneCreator, IsHex;
    CarryAll(cfg, s, s.(objects := objects));
  }

  // One run changing its state only, legally and not by succeeding.
  lemma StateMoves(cfg: Config, s: State, id: string, state: RunState, requested: bool)
    requires Inv(cfg, s) && id in s.runs && state in Transitions(s.runs[id].state) && state != Succeeded
    requires s.runs[id].requested ==> requested
    ensures var t := s.(runs := s.runs[id := s.runs[id].(state := state, requested := requested)]);
            Inv(cfg, t) && Keeps(s, t)
  {
    hide Owned, IsSound, AtMostOneCreator, IsHex, SoundFinals, SoundAttempts, SoundObject, FinalKey;
    var run := s.runs[id];
    assert SoundRun(cfg, s.objects, id, run);
    assert KeepsRun(run, run.(state := state, requested := requested));
    CarryAll(cfg, s, s.(runs := s.runs[id := run.(state := state, requested := requested)]));
  }

  lemma BeginMoves(cfg: Config, s: State, run: string, claim: Claim)
    requires Inv(cfg, s) && ValidClaim(claim)
    ensures var t := s.(attempts := s.attempts + [Attempt(run, claim, Claimed, false)]);
            Inv(cfg, t) && Keeps(s, t)
  {
    hide SoundRuns, SoundFinals, IsHex;
    var t := s.(attempts := s.attempts + [Attempt(run, claim, Claimed, false)]);
    assert forall i :: 0 <= i < |s.attempts| ==> t.attempts[i] == s.attempts[i] && IsSound(cfg, s.objects, s.runs, s.attempts[i]);
    assert IsSound(cfg, s.objects, s.runs, t.attempts[|s.attempts|]);
  }

  lemma Interrupted(cfg: Config, s: State, i: nat, phase: Phase)
    requires Inv(cfg, s) && i < |s.attempts| && !s.attempts[i].phase.Done?
    requires phase.Done? && (phase.outcome.Refused? || phase.outcome.Crashed?)
    ensures Inv(cfg, s.(attempts := s.attempts[i := s.attempts[i].(phase := phase)]))
    ensures Keeps(s, s.(attempts := s.attempts[i := s.attempts[i].(phase := phase)]))
  {
    hide SoundRuns, SoundFinals, IsHex, AtMostOneCreator, Keeps;
    assert IsSound(cfg, s.objects, s.runs, s.attempts[i]);
    PhaseMoves(cfg, s, i, phase);
  }

  /** Every step, whoever takes it, keeps the invariant and takes nothing back. */
  lemma NextKeeps(cfg: Config, s: State, step: Step)
    requires Inv(cfg, s)
    ensures Inv(cfg, Next(cfg, s, step)) && Keeps(s, Next(cfg, s, step))
  {
    KeepsItself(s);
    hide SoundRuns, SoundFinals, SoundAttempts, AtMostOneCreator, Keeps, AdvanceAttempt, ValidClaim;
    match step
    case Tick(now) => assert Keeps(s, s.(now := now)) && Keeps(s, s.(now := s.now));
    case Stage(key, item) =>
      if STAGING_PREFIX <= key {
        StagingMoves(cfg, s, s.objects[key := item]);
      }
    case Sweep(key) =>
      if STAGING_PREFIX <= key {
        StagingMoves(cfg, s, s.objects - {key});
      }
    case Begin(run, claim) =>
      if ValidClaim(claim) {
        BeginMoves(cfg, s, run, claim);
      }
    case Advance(i) =>
      if i < |s.attempts| && ValidClaim(s.attempts[i].claim) {
        AdvanceSound(cfg, s, i);
      }
    case StoreFails(i) =>
      if i < |s.attempts| && !s.attempts[i].phase.Done? {
        Interrupted(cfg, s, i, Refuse("artifact_store_unavailable", true));
      }
    case Crash(i) =>
      if i < |s.attempts| && !s.attempts[i].phase.Done? {
        Interrupted(cfg, s, i, Done(Crashed));
      }
    case RequestCancellation(run) =>
      if run in s.runs && Cancelling in Transitions(s.runs[run].state) {
        StateMoves(cfg, s, run, Cancelling, true);
      }
    case Lifecycle(run, target) =>
      if run in s.runs && target in Transitions(s.runs[run].state) && target != Succeeded {
        StateMoves(cfg, s, run, target, s.runs[run].requested);
      }
  }

  // From the one state of a run to the other: a legal transition, and a result only by a commit while running and not cancelled.
  predicate MovesLegally(before: Run, after: Run, commits: bool) {
    && (after.state == before.state || after.state in Transitions(before.state)
        || (after.state == Cancelled && Cancelling in Transitions(before.state)))
    && (after.result != before.result ==> before.state == Running && !before.requested && after.state == Succeeded && commits)
  }

  // The attempt that takes the step is about to commit this run.
  predicate Commits(s: State, step: Step, id: string) {
    step.Advance? && step.i < |s.attempts| && s.attempts[step.i].run == id && s.attempts[step.i].phase.Verified?
  }

  lemma SectionMovesLegally(cfg: Config, now: int, v: View)
    requires ValidClaim(v.attempt.claim)
    ensures MovesLegally(v.run, Section(cfg, now, v).run, v.attempt.phase.Verified?)
  {
    hide IsHex, Load, ReadStaged, VerifyFinal, PutFinal, FinalKey, ValidClaim;
  }

  lemma OtherStepsMoveLegally(cfg: Config, s: State, step: Step, id: string)
    requires id in s.runs && !step.Advance?
    ensures id in Next(cfg, s, step).runs && MovesLegally(s.runs[id], Next(cfg, s, step).runs[id], false)
  {
    hide IsHex, AdvanceAttempt, ValidClaim;
  }

  /** A run only ever makes legal transitions, and gets its result only from an attempt's commit while it is running and not cancelled. */
  lemma RunsMoveLegally(cfg: Config, s: State, step: Step, id: string)
    requires Inv(cfg, s) && id in s.runs
    ensures id in Next(cfg, s, step).runs && MovesLegally(s.runs[id], Next(cfg, s, step).runs[id], Commits(s, step, id))
  {
    hide Inv, ValidClaim, Section;
    if step.Advance? {
      if step.i < |s.attempts| && ValidClaim(s.attempts[step.i].claim) && s.attempts[step.i].run in s.runs {
        var a := s.attempts[step.i];
        SectionMovesLegally(cfg, s.now, View(s.objects, s.runs[a.run], a));
      }
    } else {
      OtherStepsMoveLegally(cfg, s, step, id);
    }
  }

  lemma KeepsTransitive(s: State, t: State, u: State)
    requires Keeps(s, t) && Keeps(t, u)
    ensures Keeps(s, u)
  {
    forall id | id in s.runs ensures KeepsRun(s.runs[id], u.runs[id]) {
      assert KeepsRun(s.runs[id], t.runs[id]) && KeepsRun(t.runs[id], u.runs[id]);
    }
    forall i | 0 <= i < |s.attempts| ensures KeepsAttempt(s.attempts[i], u.attempts[i]) {
      assert KeepsAttempt(s.attempts[i], t.attempts[i]) && KeepsAttempt(t.attempts[i], u.attempts[i]);
    }
  }

  /** The same over every run of the system, in any interleaving. */
  lemma {:induction false} ExecutionKeeps(cfg: Config, s: State, steps: seq<Step>)
    requires Inv(cfg, s)
    ensures Inv(cfg, Execute(cfg, s, steps)) && Keeps(s, Execute(cfg, s, steps))
    decreases |steps|
  {
    hide Inv, Next, Keeps;
    KeepsItself(s);
    assert Keeps(s, s.(now := s.now));
    if steps != [] {
      var t := Next(cfg, s, steps[0]);
      NextKeeps(cfg, s, steps[0]);
      ExecutionKeeps(cfg, t, steps[1..]);
      KeepsTransitive(s, t, Execute(cfg, t, steps[1..]));
    }
  }

  // ---------- what the protocol is for ----------

  // Any staged objects and runs, none with a result yet.
  predicate Initial(s: State) {
    && s.attempts == []
    && (forall key :: key in s.objects ==> STAGING_PREFIX <= key)
    && forall id :: id in s.runs ==> ValidRun(id, s.runs[id]) && s.runs[id].result.None?
  }

  lemma InitialSound(cfg: Config, s: State)
    requires Initial(s)
    ensures Inv(cfg, s)
  {
  }

  lemma FinalKeySegments(id: string, run: Run, sha256: string)
    requires ValidRun(id, run) && IsHex(sha256, 64)
    ensures Segments(FinalKey(run, sha256))
            == ["artifacts", "v1", run.organization, run.project, id, "run-result", sha256[..2], sha256]
  {
    assert NoSlash("run-result");
    hide Segments, ArtifactKey;
    ArtifactKeySegments(run.organization, run.project, Some(run.id), RUN_RESULT, sha256);
  }

  /**
   * In every interleaving a committed result names the address made of its run's organization, project and
   * id, where bytes of its size and digest that the run's schema and spec accept are stored; later steps
   * change neither.
   */
  lemma ResultsAreSoundForever(cfg: Config, s: State, before: seq<Step>, after: seq<Step>, id: string)
    requires Initial(s)
    requires id in Execute(cfg, s, before).runs && Execute(cfg, s, before).runs[id].result.Some?
    ensures var t, u := Execute(cfg, s, before), Execute(cfg, Execute(cfg, s, before), after);
            var adopted := t.runs[id].result.value;
            && id in s.runs && id in u.runs && u.runs[id].result == Some(adopted)
            && IsHex(adopted.sha256, 64)
            && Segments(adopted.key) == ["artifacts", "v1", s.runs[id].organization, s.runs[id].project, id, "run-result",
                                         adopted.sha256[..2], adopted.sha256]
            && adopted.key in t.objects && adopted.key in u.objects && u.objects[adopted.key] == t.objects[adopted.key]
            && cfg.hash(u.objects[adopted.key].content) == adopted.sha256
            && |u.objects[adopted.key].content| == adopted.size && adopted.mediaType == "application/json"
            && adopted.size <= cfg.maxBytes && (s.runs[id].kind == "select" ==> adopted.size <= cfg.maxSelectBytes)
            && cfg.schemaOf(s.runs[id].kind) == Some(adopted.schemaId)
            && cfg.accepts(s.runs[id].kind, s.runs[id].spec, u.objects[adopted.key].content)
  {
    hide IsHex, ArtifactKey, Execute, SoundFinals, SoundAttempts, AtMostOneCreator, KeepsAttempts, Segments, NoSlash;
    InitialSound(cfg, s);
    ExecutionKeeps(cfg, s, before);
    var t := Execute(cfg, s, before);
    ExecutionKeeps(cfg, t, after);
    assert KeepsRun(s.runs[id], t.runs[id]);
    assert SoundRun(cfg, t.objects, id, t.runs[id]);
    assert KeepsRun(t.runs[id], Execute(cfg, t, after).runs[id]);
    FinalKeySegments(id, t.runs[id], t.runs[id].result.value.sha256);
    FinalKeyOutsideStaging(t.runs[id], t.runs[id].result.value.sha256);
  }

  /** The steps that create a final object are attempts passing from the second check to the put. */
  lemma FinalObjectsComeFromAttempts(cfg: Config, s: State, step: Step, key: string)
    requires Inv(cfg, s) && key in Next(cfg, s, step).objects && key !in s.objects && !(STAGING_PREFIX <= key)
    ensures step.Advance? && step.i < |s.attempts| && s.attempts[step.i].phase.Cleared? && ValidClaim(s.attempts[step.i].claim)
    ensures Next(cfg, s, step).attempts[step.i].stored
    ensures var a := s.attempts[step.i]; a.run in s.runs && key == FinalKey(s.runs[a.run], a.claim.sha256)
  {
    hide IsHex, ArtifactKey, Inv, IsSound, Load, ReadStaged, VerifyFinal, Commit;
    if step.Advance? && step.i < |s.attempts| && s.attempts[step.i].phase.Cleared? && s.attempts[step.i].run in s.runs
       && ValidClaim(s.attempts[step.i].claim) {
      var a := s.attempts[step.i];
      var run := s.runs[a.run];
      PutIsWriteOnce(s.objects, cfg.hash, FinalKey(run, a.claim.sha256), a.phase.payload, a.claim.sha256, a.claim.mediaType, s.now);
      hide Put;
    }
  }

  /** An attempt that saw cancellation at either check created no object, and its run never gets a result. */
  lemma CancelledAttemptsLeaveNothing(cfg: Config, s: State, before: seq<Step>, after: seq<Step>, i: nat)
    requires Initial(s) && i < |Execute(cfg, s, before).attempts|
    requires var phase := Execute(cfg, s, before).attempts[i].phase;
             phase.Done? && phase.outcome.CancelledBefore?
    ensures var a, u := Execute(cfg, s, before).attempts[i], Execute(cfg, Execute(cfg, s, before), after);
            && !a.stored && i < |u.attempts| && u.attempts[i] == a
            && a.run in u.runs && u.runs[a.run].result.None? && IsStopping(u.runs[a.run].state)
  {
    hide IsHex, Execute, SoundFinals, SoundRuns, AtMostOneCreator, KeepsFinals;
    InitialSound(cfg, s);
    ExecutionKeeps(cfg, s, before);
    var t := Execute(cfg, s, before);
    ExecutionKeeps(cfg, t, after);
    assert IsSound(cfg, t.objects, t.runs, t.attempts[i]);
    assert KeepsAttempt(t.attempts[i], Execute(cfg, t, after).attempts[i]);
    assert KeepsRun(t.runs[t.attempts[i].run], Execute(cfg, t, after).runs[t.attempts[i].run]);
  }

  /** However often a run is delivered, at most one attempt creates its result, and all that succeed agree on it. */
  lemma OneAttemptCreatesTheResult(cfg: Config, s: State, steps: seq<Step>, i: nat, j: nat)
    requires Initial(s) && i < j < |Execute(cfg, s, steps).attempts|
    requires var attempts := Execute(cfg, s, steps).attempts;
             && attempts[i].run == attempts[j].run
             && attempts[i].phase.Done? && attempts[i].phase.outcome.Committed?
             && attempts[j].phase.Done? && attempts[j].phase.outcome.Committed?
    ensures var attempts := Execute(cfg, s, steps).attempts;
            && !(attempts[i].phase.outcome.created && attempts[j].phase.outcome.created)
            && attempts[i].claim.sha256 == attempts[j].claim.sha256
  {
    hide IsHex, Execute, SoundFinals, SoundRuns, Keeps;
    InitialSound(cfg, s);
    ExecutionKeeps(cfg, s, steps);
    var t := Execute(cfg, s, steps);
    assert IsSound(cfg, t.objects, t.runs, t.attempts[i]) && IsSound(cfg, t.objects, t.runs, t.attempts[j]);
    assert !(CreatedResult(t.attempts[i]) && CreatedResult(t.attempts[j]));
  }
}
