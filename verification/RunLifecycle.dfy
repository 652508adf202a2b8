/** Durable run states and their transitions. */
module RunLifecycle {
  datatype RunState = Draft | Queued | Provisioning | Running | Cancelling | Cancelled | Succeeded | Failed

  function Transitions(state: RunState): set<RunState> {
    match state
    case Draft => {Queued, Cancelled}
    case Queued => {Provisioning, Cancelling, Cancelled, Failed}
    case Provisioning => {Running, Cancelling, Failed}
    case Running => {Succeeded, Failed, Cancelling}
    case Cancelling => {Cancelled, Failed}
    case Cancelled => {}
    case Succeeded => {}
    case Failed => {}
  }

  /** From where each state can be entered. */
  lemma TransitionsInto(state: RunState)
    ensures Draft !in Transitions(state)
    ensures Queued in Transitions(state) <==> state == Draft
    ensures Provisioning in Transitions(state) <==> state == Queued
    ensures Running in Transitions(state) <==> state == Provisioning
    ensures Succeeded in Transitions(state) <==> state == Running
    ensures Cancelling in Transitions(state) <==> state in {Queued, Provisioning, Running}
    ensures Cancelled in Transitions(state) <==> state in {Draft, Queued, Cancelling}
    ensures Failed in Transitions(state) <==> state in {Queued, Provisioning, Running, Cancelling}
  {
  }

  // A run of legal transitions.
  ghost predicate Legal(path: seq<RunState>) {
    forall i :: 0 <= i < |path| - 1 ==> path[i + 1] in Transitions(path[i])
  }

  function Depth(state: RunState): nat {
    match state
    case Draft => 0
    case Queued => 1
    case Provisioning => 2
    case Running => 3
    case Cancelling => 4
    case Cancelled => 5
    case Succeeded => 5
    case Failed => 5
  }

  /** No state is visited twice: every life of a run has at most six states. */
  lemma {:induction false} LegalPathsAreShort(path: seq<RunState>)
    requires path != [] && Legal(path)
    ensures |path| <= 6 - Depth(path[0])
    ensures forall i, j :: 0 <= i < j < |path| ==> path[i] != path[j]
    ensures forall i :: 0 < i < |path| ==> Depth(path[0]) < Depth(path[i])
  {
    if |path| > 1 {
      assert path[0 + 1] in Transitions(path[0]);
      var rest := path[1..];
      assert forall i :: 0 <= i < |rest| - 1 ==> rest[i] == path[i + 1] && path[i + 1 + 1] in Transitions(path[i + 1]);
      LegalPathsAreShort(rest);
      assert forall i :: 0 < i < |path| ==> path[i] == rest[i - 1];
    }
  }

  /** Once cancellation has begun a run never succeeds. */
  lemma {:induction false} CancellationIsFinal(path: seq<RunState>, i: nat)
    requires path != [] && Legal(path) && path[0] in {Cancelling, Cancelled} && i < |path|
    ensures path[i] in {Cancelling, Cancelled, Failed}
  {
    if i > 0 {
      CancellationIsFinal(path, i - 1);
      assert path[i - 1 + 1] in Transitions(path[i - 1]);
    }
  }
}
