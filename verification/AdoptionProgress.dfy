/**
 * One delivery of a run carried through without interference: it converges to the committed
 * result whatever crashed before it, and the sequential program computes exactly this.
 */
module AdoptionProgress {
  import opened Digest
  import opened Wrappers
  import opened ObjectStore
  import opened Strings
  import opened ArtifactKeys
  import opened RunLifecycle
  import opened Adoption

  function Sections(cfg: Config, now: int, v: View, n: nat): (r: View)
    requires ValidClaim(v.attempt.claim)
    ensures r.attempt.claim == v.attempt.claim && r.attempt.run == v.attempt.run
    decreases n
  {
    if n == 0 then v else Sections(cfg, now, Section(cfg, now, v), n - 1)
  }

  const SECTIONS := 7

  function Begun(run: string, claim: Claim): Attempt { Attempt(run, claim, Claimed, false) }

  // A cancellation request, where the run's state allows one.
  function RequestCancel(run: Run): Run {
    if Cancelling in Transitions(run.state) then run.(state := Cancelling, requested := true) else run
  }

  function Interrupt(v: View, requested: bool): View {
    if requested && !v.attempt.phase.Done? then v.(run := RequestCancel(v.run)) else v
  }

  // A whole delivery; a cancellation may be requested while the staged bytes are being read.
  function Delivery(cfg: Config, now: int, objects: Objects, id: string, run: Run, claim: Claim, requested: bool): View
    requires ValidClaim(claim)
  {
    Sections(cfg, now, Interrupt(Sections(cfg, now, View(objects, run, Begun(id, claim)), 3), requested), SECTIONS - 3)
  }

  // ---------- the delivery as steps of the system ----------

  function Advances(i: nat, n: nat): seq<Step> { seq(n, _ => Advance(i)) }

  ghost predicate Shows(s: State, i: nat, v: View) {
    && i < |s.attempts| && s.attempts[i] == v.attempt && s.objects == v.objects
    && v.attempt.run in s.runs && s.runs[v.attempt.run] == v.run
  }

  lemma SectionIsAdvance(cfg: Config, s: State, i: nat, v: View)
    requires Shows(s, i, v) && ValidClaim(v.attempt.claim)
    ensures Shows(Next(cfg, s, Advance(i)), i, Section(cfg, s.now, v))
    ensures Next(cfg, s, Advance(i)).now == s.now
  {
    hide ValidClaim, Load, ReadStaged, VerifyFinal, Commit, Put, FinalKey, Adopts, Acknowledge, ClaimDescribes;
  }

  lemma {:induction false} SectionsAreAdvances(cfg: Config, s: State, i: nat, v: View, n: nat)
    requires Shows(s, i, v) && ValidClaim(v.attempt.claim)
    ensures Shows(Execute(cfg, s, Advances(i, n)), i, Sections(cfg, s.now, v, n))
    decreases n
  {
    hide ValidClaim, Next, Section, Shows;
    if n > 0 {
      SectionIsAdvance(cfg, s, i, v);
      SectionKeepsClaim(cfg, s.now, v);
      SectionsAreAdvances(cfg, Next(cfg, s, Advance(i)), i, Section(cfg, s.now, v), n - 1);
      assert Advances(i, n)[1..] == Advances(i, n - 1);
    }
  }

  lemma SectionKeepsClaim(cfg: Config, now: int, v: View)
    requires ValidClaim(v.attempt.claim)
    ensures Section(cfg, now, v).attempt.claim == v.attempt.claim && Section(cfg, now, v).attempt.run == v.attempt.run
  {
  }

  lemma {:induction false} ExecuteInParts(cfg: Config, s: State, a: seq<Step>, b: seq<Step>)
    ensures Execute(cfg, s, a + b) == Execute(cfg, Execute(cfg, s, a), b)
    decreases |a|
  {
    hide Next;
    if a == [] {
      assert a + b == b;
    } else {
      ExecuteInParts(cfg, Next(cfg, s, a[0]), a[1..], b);
      assert (a + b)[1..] == a[1..] + b;
    }
  }

  lemma ExecuteAtMostOne(cfg: Config, s: State, step: Step, taken: bool)
    ensures Execute(cfg, s, if taken then [step] else []) == if taken then Next(cfg, s, step) else s
  {
    hide Next;
    if taken {
      assert [step][1..] == [];
      assert Execute(cfg, Next(cfg, s, step), []) == Next(cfg, s, step);
    }
  }

  lemma InterruptIsRequest(cfg: Config, s: State, i: nat, v: View)
    requires Shows(s, i, v)
    ensures Shows(Next(cfg, s, RequestCancellation(v.attempt.run)), i, v.(run := RequestCancel(v.run)))
    ensures Next(cfg, s, RequestCancellation(v.attempt.run)).now == s.now
  {
  }

  lemma {:induction false} AdvancesKeepTime(cfg: Config, s: State, i: nat, n: nat)
    ensures Execute(cfg, s, Advances(i, n)).now == s.now
    decreases n
  {
    if n > 0 {
      assert Next(cfg, s, Advance(i)).now == s.now by {
        hide ValidClaim, Load, ReadStaged, VerifyFinal, Commit, PutFinal, FinalKey, Adopts, Acknowledge;
      }
      hide Next;
      AdvancesKeepTime(cfg, Next(cfg, s, Advance(i)), i, n - 1);
      assert Advances(i, n)[1..] == Advances(i, n - 1);
    }
  }

  function DeliverySteps(id: string, claim: Claim, i: nat, interrupted: bool): seq<Step> {
    [Begin(id, claim)] + (Advances(i, 3) + ((if interrupted then [RequestCancellation(id)] else []) + Advances(i, SECTIONS - 3)))
  }

  /** A delivery is one of the executions that the safety results are about. */
  lemma DeliveryIsExecution(cfg: Config, s: State, id: string, claim: Claim, requested: bool)
    requires ValidClaim(claim) && id in s.runs
    ensures exists interrupted ::
              Shows(Execute(cfg, s, DeliverySteps(id, claim, |s.attempts|, interrupted)), |s.attempts|,
                    Delivery(cfg, s.now, s.objects, id, s.runs[id], claim, requested))
  {
    var i := |s.attempts|;
    var v0 := View(s.objects, s.runs[id], Begun(id, claim));
    var s0 := Next(cfg, s, Begin(id, claim));
    assert Shows(s0, i, v0) && s0.now == s.now;
    hide ValidClaim, Sections, Next, Shows;
    var v1, s1 := Sections(cfg, s.now, v0, 3), Execute(cfg, s0, Advances(i, 3));
    SectionsAreAdvances(cfg, s0, i, v0, 3);
    AdvancesKeepTime(cfg, s0, i, 3);
    var interrupted := requested && !v1.attempt.phase.Done?;
    var v2 := Interrupt(v1, requested);
    var request := if interrupted then [RequestCancellation(id)] else [];
    var s2 := Execute(cfg, s1, request);
    ExecuteAtMostOne(cfg, s1, RequestCancellation(id), interrupted);
    InterruptIsRequest(cfg, s1, i, v1);
    SectionsAreAdvances(cfg, s2, i, v2, SECTIONS - 3);
    ExecuteInParts(cfg, s1, request, Advances(i, SECTIONS - 3));
    ExecuteInParts(cfg, s0, Advances(i, 3), request + Advances(i, SECTIONS - 3));
    var steps := DeliverySteps(id, claim, i, interrupted);
    assert steps[1..] == Advances(i, 3) + (request + Advances(i, SECTIONS - 3));
  }

  // ---------- convergence ----------

  // The staged bytes are the ones claimed, and acceptable as the result of this run.
  ghost predicate GoodStaging(cfg: Config, objects: Objects, run: Run, claim: Claim, payload: string)
    requires ValidClaim(claim)
  {
    var key := StagedKeyOf(claim.sha256);
    && key in objects && objects[key].content == payload && ClaimDescribes(objects[key].descriptor, key, claim)
    && SoundPayload(cfg, run, claim, payload)
  }

  // Whatever is at the final address already is what would be put there.
  lemma ExistingFinalAgrees(cfg: Config, s: State, run: Run, claim: Claim, payload: string)
    requires Inv(cfg, s) && CollisionFree(cfg.hash) && run.id in s.runs && s.runs[run.id] == run && ValidClaim(claim)
    requires SoundPayload(cfg, run, claim, payload) && FinalKey(run, claim.sha256) in s.objects
    ensures StoredPayload(s.objects, run, claim, payload)
  {
    hide IsHex, SoundRuns, SoundAttempts, AtMostOneCreator, ArtifactKey;
    var key := FinalKey(run, claim.sha256);
    FinalKeyOutsideStaging(run, claim.sha256);
    assert Owned(cfg, s.runs, key, s.objects[key]);
    var id :| id in s.runs && SoundObject(cfg, s.runs[id], key, s.objects[key]);
    FinalKeyDigest(s.runs[id], s.objects[key].descriptor.sha256, run, claim.sha256);
  }

  lemma FinalKeyDigest(a: Run, x: string, b: Run, y: string)
    requires IsHex(x, 64) && IsHex(y, 64) && FinalKey(a, x) == FinalKey(b, y)
    ensures x == y
  {
    hide HexChar;
    var s, t := "artifacts/v1/" + a.organization + "/" + a.project + "/" + (Scope(Some(a.id)) + "/" + RUN_RESULT),
                "artifacts/v1/" + b.organization + "/" + b.project + "/" + (Scope(Some(b.id)) + "/" + RUN_RESULT);
    SplitSuffix(s, "/" + x[..2] + "/" + x, t, "/" + y[..2] + "/" + y);
    SplitSuffix("/" + x[..2] + "/", x, "/" + y[..2] + "/", y);
  }

  // Putting good bytes at their own address and reading them back succeeds.
  lemma PutAndVerify(cfg: Config, now: int, objects: Objects, run: Run, claim: Claim, payload: string)
    requires ValidClaim(claim) && SoundPayload(cfg, run, claim, payload) && ValidKey(FinalKey(run, claim.sha256))
    requires FinalKey(run, claim.sha256) in objects ==> StoredPayload(objects, run, claim, payload)
    ensures var (objects', phase, created) := PutFinal(cfg, objects, now, run, claim, payload);
            && phase == Written(payload) && (created <==> FinalKey(run, claim.sha256) !in objects)
            && VerifyFinal(cfg, objects', run, claim, payload) == Verified(payload)
  {
    hide ValidKey, FinalKey, IsHex;
    assert ValidDescriptor(Descriptor(FinalKey(run, claim.sha256), |payload|, claim.sha256, claim.mediaType, 0));
  }

  lemma ReadGoodStaging(cfg: Config, objects: Objects, run: Run, claim: Claim, payload: string)
    requires ValidClaim(claim) && GoodStaging(cfg, objects, run, claim, payload) && ValidKey(StagedKeyOf(claim.sha256))
    ensures ReadStaged(cfg, objects, run, claim) == Read(payload)
  {
    hide ValidKey, IsHex, StagedKey;
  }

  lemma SectionsStep(cfg: Config, now: int, v: View, n: nat)
    requires ValidClaim(v.attempt.claim) && n > 0
    ensures ValidClaim(Section(cfg, now, v).attempt.claim)
    ensures Sections(cfg, now, v, n) == Sections(cfg, now, Section(cfg, now, v), n - 1)
  {
    SectionKeepsClaim(cfg, now, v);
  }

  // The seven sections of a delivery in which nothing goes wrong.
  lemma SmoothDelivery(cfg: Config, now: int, objects: Objects, id: string, run: Run, claim: Claim, payload: string)
    requires ValidClaim(claim) && IsHex(claim.sha256, 64) && !IsCancelling(run.state) && Load(cfg, run, claim) == Loaded(run.state)
    requires ReadStaged(cfg, objects, run, claim) == Read(payload)
    requires PutFinal(cfg, objects, now, run, claim, payload).1 == Written(payload)
    requires VerifyFinal(cfg, PutFinal(cfg, objects, now, run, claim, payload).0, run, claim, payload) == Verified(payload)
    ensures var v := Delivery(cfg, now, objects, id, run, claim, false);
            && v.objects == PutFinal(cfg, objects, now, run, claim, payload).0
            && v.run == Commit(run, Adopts(run, claim)).0
            && v.attempt.phase == Done(Commit(run, Adopts(run, claim)).1)
  {
    hide Sections, Section, ValidClaim, Load, ReadStaged, PutFinal, VerifyFinal, Commit, Adopts, Acknowledge;
    var a := Begun(id, claim);
    SmoothReading(cfg, now, objects, id, run, claim, payload);
    var v3 := View(objects, run, a.(phase := Read(payload)));
    SectionsEnd(cfg, now, v3);
    SmoothWriting(cfg, now, objects, id, run, claim, payload);
  }

  // As far as the staged bytes.
  lemma SmoothReading(cfg: Config, now: int, objects: Objects, id: string, run: Run, claim: Claim, payload: string)
    requires ValidClaim(claim) && IsHex(claim.sha256, 64) && !IsCancelling(run.state) && Load(cfg, run, claim) == Loaded(run.state)
    requires ReadStaged(cfg, objects, run, claim) == Read(payload)
    ensures Sections(cfg, now, View(objects, run, Begun(id, claim)), 3) == View(objects, run, Begun(id, claim).(phase := Read(payload)))
  {
    hide Sections, ValidClaim, Load, ReadStaged, PutFinal, VerifyFinal, Commit, Adopts, Acknowledge;
    var a := Begun(id, claim);
    var v0 := View(objects, run, a);
    SectionsStep(cfg, now, v0, 3);
    var v1 := View(objects, run, a.(phase := Loaded(run.state)));
    assert Section(cfg, now, v0) == v1;
    SectionsStep(cfg, now, v1, 2);
    var v2 := View(objects, run, a.(phase := Admitted));
    assert Section(cfg, now, v1) == v2;
    SectionsStep(cfg, now, v2, 1);
    var v3 := View(objects, run, a.(phase := Read(payload)));
    assert Section(cfg, now, v2) == v3;
    SectionsEnd(cfg, now, v3);
  }

  // From the staged bytes to the commit.
  lemma SmoothWriting(cfg: Config, now: int, objects: Objects, id: string, run: Run, claim: Claim, payload: string)
    requires ValidClaim(claim) && IsHex(claim.sha256, 64) && !IsCancelling(run.state)
    requires PutFinal(cfg, objects, now, run, claim, payload).1 == Written(payload)
    requires VerifyFinal(cfg, PutFinal(cfg, objects, now, run, claim, payload).0, run, claim, payload) == Verified(payload)
    ensures var v := Sections(cfg, now, View(objects, run, Begun(id, claim).(phase := Read(payload))), 4);
            && v.objects == PutFinal(cfg, objects, now, run, claim, payload).0
            && v.run == Commit(run, Adopts(run, claim)).0
            && v.attempt.phase == Done(Commit(run, Adopts(run, claim)).1)
  {
    hide Sections, ValidClaim, Load, ReadStaged, PutFinal, VerifyFinal, Commit, Adopts, Acknowledge;
    var a := Begun(id, claim);
    var (objects', phase, created) := PutFinal(cfg, objects, now, run, claim, payload);
    var v3 := View(objects, run, a.(phase := Read(payload)));
    SectionsStep(cfg, now, v3, 4);
    var v4 := View(objects, run, a.(phase := Cleared(payload)));
    assert Section(cfg, now, v3) == v4;
    SectionsStep(cfg, now, v4, 3);
    var v5 := View(objects', run, a.(phase := Written(payload), stored := created));
    assert Section(cfg, now, v4) == v5;
    SectionsStep(cfg, now, v5, 2);
    var v6 := View(objects', run, a.(phase := Verified(payload), stored := created));
    assert Section(cfg, now, v5) == v6;
    SectionsStep(cfg, now, v6, 1);
    SectionsEnd(cfg, now, Section(cfg, now, v6));
  }

  lemma SectionsEnd(cfg: Config, now: int, v: View)
    requires ValidClaim(v.attempt.claim)
    ensures Sections(cfg, now, v, 0) == v
  {
  }

  lemma KnownRun(cfg: Config, s: State, id: string)
    requires Inv(cfg, s) && id in s.runs
    ensures SoundRun(cfg, s.objects, id, s.runs[id])
  {
    hide SoundRun;
  }

  lemma LoadsAndCommits(cfg: Config, objects: Objects, run: Run, claim: Claim, payload: string)
    requires ValidClaim(claim) && GoodStaging(cfg, objects, run, claim, payload) && !run.requested
    requires run.state == Running || (run.state == Succeeded && run.result == Some(Adopts(run, claim)))
    ensures Load(cfg, run, claim) == Loaded(run.state)
    ensures Commit(run, Adopts(run, claim)) == (run.(state := Succeeded, result := Some(Adopts(run, claim))), Committed(run.state == Running))
  {
    hide IsHex, FinalKey, StagedKeyOf;
  }

  /**
   * As long as the staged bytes are there, the next undisturbed delivery of a run that still wants
   * its result commits it, and a delivery after success finds the same result, whatever earlier
   * attempts did before they crashed.
   */
  lemma RetryConverges(cfg: Config, s: State, id: string, claim: Claim, payload: string)
    requires Inv(cfg, s) && CollisionFree(cfg.hash) && id in s.runs && ValidClaim(claim)
    requires GoodStaging(cfg, s.objects, s.runs[id], claim, payload)
    requires !s.runs[id].requested
    requires s.runs[id].state == Running || (s.runs[id].state == Succeeded && s.runs[id].result == Some(Adopts(s.runs[id], claim)))
    ensures var v := Delivery(cfg, s.now, s.objects, id, s.runs[id], claim, false);
            && v.attempt.phase == Done(Committed(s.runs[id].state == Running))
            && v.run.state == Succeeded && v.run.result == Some(Adopts(s.runs[id], claim))
  {
    hide IsHex, Inv, PutFinal, ReadStaged, VerifyFinal, SoundPayload, FinalKey, StoredPayload, Delivery, Load, Commit, ValidKey, ClaimDescribes;
    var run := s.runs[id];
    KnownRun(cfg, s, id);
    KeysAreValid(run.organization, run.project, run.id, claim.sha256);
    FinalKeyIs(run, claim.sha256);
    ReadGoodStaging(cfg, s.objects, run, claim, payload);
    LoadsAndCommits(cfg, s.objects, run, claim, payload);
    if FinalKey(run, claim.sha256) in s.objects {
      ExistingFinalAgrees(cfg, s, run, claim, payload);
    }
    PutAndVerify(cfg, s.now, s.objects, run, claim, payload);
    SmoothDelivery(cfg, s.now, s.objects, id, run, claim, payload);
  }

  lemma FinalKeyIs(run: Run, sha256: string)
    requires IsHex(sha256, 64)
    ensures FinalKey(run, sha256) == ArtifactKey(run.organization, run.project, Some(run.id), RUN_RESULT, sha256).value
  {
  }
}
