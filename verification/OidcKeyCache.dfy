/**
 * The timed key cache of the OIDC verifier: lookups answered from the cache without the lock, and
 * a locked section that refreshes at most once per cooldown.
 */
module OidcKeyCache {
  import opened Wrappers
  import opened Json
  import opened JwksDocument

  datatype Limits = Limits(cacheSeconds: real, cooldown: real)

  predicate ValidLimits(l: Limits) { l.cacheSeconds > 0.0 && l.cooldown > 0.0 }

  // None stands for the time minus infinity.
  datatype Cache = Cache(keys: Keys, refreshedAt: Option<real>, lastAttempt: Option<real>, lastFailed: bool)

  const EMPTY := Cache(map[], None, None, false)

  // How a lookup ends: with a key, or with one of the two errors.
  datatype Answer = Served(key: Material) | Unavailable | Unauthenticated

  predicate IsFresh(l: Limits, c: Cache, now: real) { c.refreshedAt.Some? && now - c.refreshedAt.value <= l.cacheSeconds }

  predicate IsCoolingDown(l: Limits, c: Cache, now: real) { c.lastAttempt.Some? && now - c.lastAttempt.value < l.cooldown }

  // The key a lookup may use without asking the provider.
  function Cached(l: Limits, c: Cache, kid: string, now: real): Option<Material> {
    if kid in c.keys && IsFresh(l, c, now) then Some(c.keys[kid]) else None
  }

  // The locked section up to the refresh: an answer, or none when it must refresh.
  function Decide(l: Limits, c: Cache, kid: string, now: real): Option<Answer> {
    if Cached(l, c, kid, now).Some? then Some(Served(c.keys[kid]))
    else if IsCoolingDown(l, c, now) && (c.lastFailed || IsFresh(l, c, now)) then
      Some(if kid in c.keys || c.lastFailed then Unavailable else Unauthenticated)
    else None
  }

  function Finished(c: Cache, at: real, fetched: Option<Keys>): Cache {
    match fetched
    case None => c.(lastFailed := true)
    case Some(keys) => c.(keys := keys, refreshedAt := Some(at), lastFailed := false)
  }

  function AnswerAfter(fetched: Option<Keys>, kid: string): Answer {
    match fetched
    case None => Unavailable
    case Some(keys) => if kid in keys then Served(keys[kid]) else Unauthenticated
  }

  // ---------- the verifier under concurrent lookups ----------

  // refreshing is the key id whose lookup holds the lock while it waits for the provider; times
  // are those at which the provider was asked, and outcomes what it answered, none for a failure.
  datatype System = System(clock: real, cache: Cache, refreshing: Option<string>, times: seq<real>, outcomes: seq<Option<Keys>>)

  datatype Step =
    | Glance(kid: string, now: real)          // the lookup before the lock
    | Enter(kid: string, now: real)           // the locked section up to the refresh
    | Finish(fetched: Option<Keys>)           // the refresh ends and the lock is released

  predicate IsEnabled(s: System, step: Step) {
    match step
    case Glance(_, now) => s.clock <= now
    case Enter(_, now) => s.clock <= now && s.refreshing.None?
    case Finish(_) => s.refreshing.Some? && s.times != []
  }

  // The next state and the answer given, if any; a step that is not enabled changes nothing.
  function Next(l: Limits, s: System, step: Step): (System, Option<Answer>) {
    if !IsEnabled(s, step) then (s, None)
    else
      match step
      case Glance(kid, now) =>
        (s.(clock := now), match Cached(l, s.cache, kid, now) case Some(key) => Some(Served(key)) case None => None)
      case Enter(kid, now) =>
        (match Decide(l, s.cache, kid, now)
         case Some(answer) => (s.(clock := now), Some(answer))
         case None => (s.(clock := now, cache := s.cache.(lastAttempt := Some(now)), refreshing := Some(kid), times := s.times + [now]), None))
      case Finish(fetched) =>
        (s.(cache := Finished(s.cache, s.times[|s.times| - 1], fetched), refreshing := None, outcomes := s.outcomes + [fetched]),
         Some(AnswerAfter(fetched, s.refreshing.value)))
  }

  function Run(l: Limits, s: System, steps: seq<Step>): System
    decreases |steps|
  {
    if steps == [] then s else Run(l, Next(l, s, steps[0]).0, steps[1..])
  }

  function Start(clock: real): System { System(clock, EMPTY, None, [], []) }

  // ---------- the invariant ----------

  function LatestSuccess(outcomes: seq<Option<Keys>>): (r: Option<nat>)
    ensures r.None? <==> forall i :: 0 <= i < |outcomes| ==> outcomes[i].None?
    ensures r.Some? ==> r.value < |outcomes| && outcomes[r.value].Some?
    ensures r.Some? ==> forall i :: r.value < i < |outcomes| ==> outcomes[i].None?
  {
    if outcomes == [] then None
    else if outcomes[|outcomes| - 1].Some? then Some(|outcomes| - 1)
    else LatestSuccess(outcomes[..|outcomes| - 1])
  }

  predicate LastFailed(outcomes: seq<Option<Keys>>) { outcomes != [] && outcomes[|outcomes| - 1].None? }

  // The fields hold what the attempts say.
  predicate Reflects(c: Cache, times: seq<real>, outcomes: seq<Option<Keys>>)
    requires |outcomes| <= |times|
  {
    && c.lastAttempt == (if times == [] then None else Some(times[|times| - 1]))
    && c.lastFailed == LastFailed(outcomes)
    && match LatestSuccess(outcomes)
       case None => c.refreshedAt.None? && c.keys == map[]
       case Some(k) => c.refreshedAt == Some(times[k]) && c.keys == outcomes[k].value
  }

  // The next refresh waits for the cooldown, or for the keys just fetched to expire.
  predicate Spaced(l: Limits, first: real, outcome: Option<Keys>, next: real) {
    next - first >= l.cooldown || (outcome.Some? && next - first > l.cacheSeconds)
  }

  predicate AllSpaced(l: Limits, times: seq<real>, outcomes: seq<Option<Keys>>) {
    forall i :: 0 <= i < |times| - 1 && i < |outcomes| ==> Spaced(l, times[i], outcomes[i], times[i + 1])
  }

  predicate Inv(l: Limits, s: System) {
    && |s.times| == |s.outcomes| + (if s.refreshing.Some? then 1 else 0)
    && Reflects(s.cache, s.times, s.outcomes)
    && (s.times != [] ==> s.times[|s.times| - 1] <= s.clock)
    && AllSpaced(l, s.times, s.outcomes)
  }

  lemma EnterKeeps(l: Limits, s: System, kid: string, now: real)
    requires ValidLimits(l) && Inv(l, s) && IsEnabled(s, Enter(kid, now))
    ensures Inv(l, Next(l, s, Enter(kid, now)).0)
  {
    hide LatestSuccess;
    if Decide(l, s.cache, kid, now).None? && s.times != [] {
      var last := |s.times| - 1;
      assert Spaced(l, s.times[last], s.outcomes[last], now);
    }
  }

  lemma FinishKeeps(l: Limits, s: System, fetched: Option<Keys>)
    requires ValidLimits(l) && Inv(l, s) && s.refreshing.Some?
    ensures Inv(l, Next(l, s, Finish(fetched)).0)
  {
    var outcomes := s.outcomes + [fetched];
    assert outcomes[..|s.outcomes|] == s.outcomes;
  }

  lemma NextKeeps(l: Limits, s: System, step: Step)
    requires ValidLimits(l) && Inv(l, s)
    ensures Inv(l, Next(l, s, step).0)
  {
    if IsEnabled(s, step) {
      match step
      case Glance(_, now) =>
      case Enter(kid, now) => EnterKeeps(l, s, kid, now);
      case Finish(fetched) => FinishKeeps(l, s, fetched);
    }
  }

  lemma {:induction false} RunKeeps(l: Limits, s: System, steps: seq<Step>)
    requires ValidLimits(l) && Inv(l, s)
    ensures Inv(l, Run(l, s, steps))
    decreases |steps|
  {
    hide Inv, Next;
    if steps != [] {
      NextKeeps(l, s, steps[0]);
      RunKeeps(l, Next(l, s, steps[0]).0, steps[1..]);
    }
  }

  lemma StartKeeps(l: Limits, clock: real, steps: seq<Step>)
    requires ValidLimits(l)
    ensures Inv(l, Run(l, Start(clock), steps))
  {
    RunKeeps(l, Start(clock), steps);
  }

  // ---------- the rate at which the provider is asked ----------

  function Gap(l: Limits): real { if l.cacheSeconds < l.cooldown then l.cacheSeconds else l.cooldown }

  // Consecutive times at least a gap apart.
  predicate Apart(times: seq<real>, gap: real) { forall i :: 0 <= i < |times| - 1 ==> times[i + 1] - times[i] >= gap }

  lemma TimesApart(l: Limits, s: System)
    requires ValidLimits(l) && Inv(l, s)
    ensures Gap(l) > 0.0 && Apart(s.times, Gap(l))
  {
    hide Reflects;
    forall i | 0 <= i < |s.times| - 1 ensures s.times[i + 1] - s.times[i] >= Gap(l) {
      assert Spaced(l, s.times[i], s.outcomes[i], s.times[i + 1]);
    }
  }

  lemma {:induction false} Ordered(times: seq<real>, gap: real, i: nat, j: nat)
    requires gap > 0.0 && Apart(times, gap) && i <= j < |times|
    ensures times[i] <= times[j]
  {
    if i < j {
      Ordered(times, gap, i, j - 1);
      assert times[j - 1 + 1] - times[j - 1] >= gap;
    }
  }

  lemma {:induction false} Spread(times: seq<real>, gap: real, i: nat, n: nat)
    requires gap > 0.0 && Apart(times, gap) && i + n < |times|
    ensures times[i + n] - times[i] >= n as real * gap
  {
    if n > 0 {
      Spread(times, gap, i, n - 1);
      assert times[i + (n - 1) + 1] - times[i + (n - 1)] >= gap;
      OneMore(n, gap);
    }
  }

  lemma OneMore(n: nat, gap: real)
    requires n > 0
    ensures n as real * gap == (n - 1) as real * gap + gap
  {
    assert n as real == (n - 1) as real + 1.0;
  }

  lemma LaterIsSpaced(l: Limits, s: System, i: nat, j: nat)
    requires ValidLimits(l) && Inv(l, s) && i < j < |s.times|
    ensures i < |s.outcomes| && Spaced(l, s.times[i], s.outcomes[i], s.times[j])
  {
    hide Reflects, Gap;
    TimesApart(l, s);
    assert Spaced(l, s.times[i], s.outcomes[i], s.times[i + 1]);
    Ordered(s.times, Gap(l), i + 1, j);
  }

  /** Two refreshes are a cooldown apart, unless the first succeeded and its keys expired before the second. */
  lemma RefreshesAreSpaced(l: Limits, clock: real, steps: seq<Step>, i: nat, j: nat)
    requires ValidLimits(l)
    requires i < j < |Run(l, Start(clock), steps).times|
    ensures var s := Run(l, Start(clock), steps); i < |s.outcomes| && Spaced(l, s.times[i], s.outcomes[i], s.times[j])
  {
    StartKeeps(l, clock, steps);
    hide Inv, Run;
    LaterIsSpaced(l, Run(l, Start(clock), steps), i, j);
  }

  /** Any n refreshes within a window of length w satisfy n <= floor(w / min(cooldown, cache)) + 1. */
  lemma RefreshRate(l: Limits, clock: real, steps: seq<Step>, i: nat, n: nat, window: real)
    requires ValidLimits(l) && n > 0
    requires var times := Run(l, Start(clock), steps).times; i + n <= |times| && times[i + n - 1] - times[i] <= window
    ensures Gap(l) > 0.0 && n <= (window / Gap(l)).Floor + 1
  {
    StartKeeps(l, clock, steps);
    hide Inv, Run, Gap, Apart;
    TimesApart(l, Run(l, Start(clock), steps));
    RateBound(Run(l, Start(clock), steps).times, Gap(l), i, n, window);
  }

  lemma RateBound(times: seq<real>, gap: real, i: nat, n: nat, window: real)
    requires gap > 0.0 && Apart(times, gap) && 0 < n <= |times| - i && times[i + n - 1] - times[i] <= window
    ensures n <= (window / gap).Floor + 1
  {
    hide Apart;
    Spread(times, gap, i, n - 1);
    assert times[i + (n - 1)] == times[i + n - 1];
    var span := (n - 1) as real * gap;
    assert span <= window;
    Quotient(n - 1, gap, window);
  }

  lemma Quotient(n: nat, gap: real, window: real)
    requires gap > 0.0 && n as real * gap <= window
    ensures n <= (window / gap).Floor
  {
    var q := window / gap;
    assert q * gap == window;
    Cancel(n as real, q, gap);
  }

  lemma Cancel(x: real, y: real, gap: real)
    requires gap > 0.0 && x * gap <= y * gap
    ensures x <= y
  {
    assert (y - x) * gap >= 0.0;
  }

  // ---------- what is served ----------

  predicate IsNewest(outcomes: seq<Option<Keys>>, k: nat) {
    k < |outcomes| && outcomes[k].Some? && forall i :: k < i < |outcomes| ==> outcomes[i].None?
  }

  // The newest key set fetched has this key for the id, and was fetched at most the cache time ago.
  ghost predicate HasCurrent(l: Limits, s: System, kid: string, now: real, key: Material) {
    exists k :: IsCurrentAt(l, s, kid, now, key, k)
  }

  predicate IsCurrentAt(l: Limits, s: System, kid: string, now: real, key: Material, k: nat) {
    && IsNewest(s.outcomes, k) && k < |s.times| && kid in s.outcomes[k].value && s.outcomes[k].value[kid] == key
    && now - s.times[k] <= l.cacheSeconds
  }

  lemma CachedIsCurrent(l: Limits, s: System, kid: string, now: real, key: Material)
    requires Inv(l, s)
    ensures Cached(l, s.cache, kid, now) == Some(key) <==> HasCurrent(l, s, kid, now, key)
  {
    hide AllSpaced;
    var newest := LatestSuccess(s.outcomes);
    if newest.Some? && Cached(l, s.cache, kid, now) == Some(key) {
      assert IsCurrentAt(l, s, kid, now, key, newest.value);
    }
    if k: nat :| IsCurrentAt(l, s, kid, now, key, k) {
      assert newest.Some? && newest.value == k;
    }
  }

  /** A lookup is served from the cache exactly the key that the newest key set has for its id, while that is at most the cache time old. */
  lemma ServedKeysAreCurrent(l: Limits, clock: real, steps: seq<Step>, kid: string, now: real, key: Material)
    requires ValidLimits(l) && Run(l, Start(clock), steps).clock <= now
    ensures var s := Run(l, Start(clock), steps);
            Next(l, s, Glance(kid, now)).1 == Some(Served(key)) <==> HasCurrent(l, s, kid, now, key)
    ensures var s := Run(l, Start(clock), steps);
            s.refreshing.None? ==> (Next(l, s, Enter(kid, now)).1 == Some(Served(key)) <==> HasCurrent(l, s, kid, now, key))
  {
    StartKeeps(l, clock, steps);
    hide Run, AllSpaced, Inv, HasCurrent;
    CachedIsCurrent(l, Run(l, Start(clock), steps), kid, now, key);
  }

  /** Once the provider has answered, the lookup that asked has its key, or it is unavailable, or it has none. */
  lemma RefreshAnswers(l: Limits, clock: real, steps: seq<Step>, fetched: Option<Keys>)
    requires ValidLimits(l) && Run(l, Start(clock), steps).refreshing.Some?
    ensures var s := Run(l, Start(clock), steps);
            var (t, answer) := Next(l, s, Finish(fetched));
            var kid := s.refreshing.value;
            && answer.Some? && t.refreshing.None? && t.outcomes == s.outcomes + [fetched] && t.times == s.times
            && (answer.value == Unavailable <==> fetched.None?)
            && (answer.value == Unauthenticated <==> fetched.Some? && kid !in fetched.value)
            && forall key :: answer.value == Served(key) <==> fetched.Some? && kid in fetched.value && fetched.value[kid] == key
  {
    StartKeeps(l, clock, steps);
    hide Run, AllSpaced;
  }

  /** Within the cooldown a lookup that the cache does not answer fails, as unavailable exactly when the last refresh failed. */
  lemma CooldownAnswers(l: Limits, clock: real, steps: seq<Step>, kid: string, now: real)
    requires ValidLimits(l)
    requires var s := Run(l, Start(clock), steps);
             && s.clock <= now && s.refreshing.None? && (forall key :: !HasCurrent(l, s, kid, now, key))
             && Next(l, s, Enter(kid, now)).1.Some?
    ensures var s := Run(l, Start(clock), steps);
            var answer := Next(l, s, Enter(kid, now)).1.value;
            && s.times != [] && |s.times| == |s.outcomes| && now - s.times[|s.times| - 1] < l.cooldown
            && answer == (if LastFailed(s.outcomes) then Unavailable else Unauthenticated)
            && (answer.Unauthenticated? ==> kid !in s.outcomes[|s.outcomes| - 1].value)
  {
    StartKeeps(l, clock, steps);
    var s := Run(l, Start(clock), steps);
    hide Run, AllSpaced, HasCurrent;
    if Cached(l, s.cache, kid, now).Some? {
      CachedIsCurrent(l, s, kid, now, Cached(l, s.cache, kid, now).value);
    }
  }

  /** A lookup asks the provider exactly when no current key answers it and no earlier attempt holds it back. */
  lemma RefreshesWhenNeeded(l: Limits, clock: real, steps: seq<Step>, kid: string, now: real)
    requires ValidLimits(l)
    requires var s := Run(l, Start(clock), steps); s.clock <= now && s.refreshing.None?
    ensures var s := Run(l, Start(clock), steps);
            var (t, answer) := Next(l, s, Enter(kid, now));
            && |s.times| == |s.outcomes|
            && (t.refreshing.Some? <==>
                  && (forall key :: !HasCurrent(l, s, kid, now, key))
                  && forall i :: 0 <= i < |s.outcomes| ==> Spaced(l, s.times[i], s.outcomes[i], now))
            && (t.refreshing.Some? ==> t.refreshing == Some(kid) && t.times == s.times + [now] && answer.None?)
            && (t.refreshing.None? ==> t.times == s.times && answer.Some?)
  {
    StartKeeps(l, clock, steps);
    hide Run, HasCurrent;
    var s := Run(l, Start(clock), steps);
    NewestIsNearest(l, s, now);
    DecidesBySpacing(l, s, kid, now);
    forall key ensures Cached(l, s.cache, kid, now) == Some(key) <==> HasCurrent(l, s, kid, now, key) {
      CachedIsCurrent(l, s, kid, now, key);
    }
  }

  lemma DecidesBySpacing(l: Limits, s: System, kid: string, now: real)
    requires ValidLimits(l) && Inv(l, s) && IsEnabled(s, Enter(kid, now))
    ensures Next(l, s, Enter(kid, now)).0.refreshing.Some? <==>
              && Cached(l, s.cache, kid, now).None?
              && (s.outcomes == [] || Spaced(l, s.times[|s.outcomes| - 1], s.outcomes[|s.outcomes| - 1], now))
  {
    hide AllSpaced;
  }

  // What is far enough from the newest attempt is far enough from all.
  lemma NewestIsNearest(l: Limits, s: System, now: real)
    requires ValidLimits(l) && Inv(l, s) && s.refreshing.None? && s.clock <= now
    ensures (s.outcomes == [] || Spaced(l, s.times[|s.outcomes| - 1], s.outcomes[|s.outcomes| - 1], now))
            <==> forall i :: 0 <= i < |s.outcomes| ==> Spaced(l, s.times[i], s.outcomes[i], now)
  {
    hide Reflects;
    if s.outcomes != [] {
      var last := |s.outcomes| - 1;
      forall i | 0 <= i < last ensures Spaced(l, s.times[i], s.outcomes[i], now) {
        LaterIsSpaced(l, s, i, last);
      }
    }
  }
}
