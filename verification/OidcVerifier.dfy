/** The verifier object: its four cache fields, and the lookup that updates them. */
module OidcVerifier {
  import opened Wrappers
  import opened JwksDocument
  import opened OidcKeyCache

  class OidcJwtVerifier {
    const limits: Limits
    const issuer: string
    const construct: Construct
    var keys: Keys
    var refreshedAt: Option<real>
    var lastRefreshAttempt: Option<real>
    var lastRefreshFailed: bool

    constructor (limits: Limits, issuer: string, construct: Construct)
      ensures this.limits == limits && this.issuer == issuer && this.construct == construct
      ensures Contents() == EMPTY
    {
      this.limits, this.issuer, this.construct := limits, issuer, construct;
      keys, refreshedAt, lastRefreshAttempt, lastRefreshFailed := map[], None, None, false;
    }

    function Contents(): Cache
      reads this
    {
      Cache(keys, refreshedAt, lastRefreshAttempt, lastRefreshFailed)
    }

    // The outcome is returned for the specification's sake; the program raises on failure.
    method RefreshKeys(web: Web, now: real) returns (fetched: Option<Keys>)
      modifies this`keys, this`refreshedAt
      ensures RefreshYields(web, construct, issuer, fetched)
      ensures fetched.None? ==> Contents() == old(Contents())
      ensures fetched.Some? ==> Contents() == old(Contents()).(keys := fetched.value, refreshedAt := Some(now))
    {
      hide RefreshYields;
      fetched := FetchKeys(web, construct, issuer);
      if fetched.Some? {
        keys, refreshedAt := fetched.value, Some(now);
      }
    }

    // A key for this id that may be used without asking the provider.
    predicate HasFreshKey(kid: string, at: real)
      reads this
    {
      kid in keys && refreshedAt.Some? && at - refreshedAt.value <= limits.cacheSeconds
    }

    // The last attempt is too recent for another one.
    predicate IsHeldBack(at: real)
      reads this
    {
      && lastRefreshAttempt.Some? && at - lastRefreshAttempt.value < limits.cooldown
      && (lastRefreshFailed || (refreshedAt.Some? && at - refreshedAt.value <= limits.cacheSeconds))
    }

    /**
     * A lookup without the lock at `now`, and with it at `entered`: a fresh key is served, a lookup that is
     * held back fails, and otherwise the answer is what the refresh gives, as are the fields.
     */
    method GetKey(kid: string, now: real, entered: real, web: Web) returns (answer: Answer)
      modifies this
      ensures old(HasFreshKey(kid, now)) || old(HasFreshKey(kid, entered)) ==>
                Contents() == old(Contents()) && answer == Served(old(keys)[kid])
      ensures !old(HasFreshKey(kid, now)) && !old(HasFreshKey(kid, entered)) && old(IsHeldBack(entered)) ==>
                && Contents() == old(Contents())
                && answer == if kid in old(keys) || old(lastRefreshFailed) then Unavailable else Unauthenticated
      ensures !old(HasFreshKey(kid, now)) && !old(HasFreshKey(kid, entered)) && !old(IsHeldBack(entered)) ==>
                && lastRefreshAttempt == Some(entered)
                && exists fetched :: RefreshYields(web, construct, issuer, fetched)
                                     && match fetched
                                        case None =>
                                          answer == Unavailable && lastRefreshFailed && keys == old(keys) && refreshedAt == old(refreshedAt)
                                        case Some(found) =>
                                          && answer == (if kid in found then Served(found[kid]) else Unauthenticated)
                                          && !lastRefreshFailed && keys == found && refreshedAt == Some(entered)
    {
      hide RefreshYields;
      if kid in keys && refreshedAt.Some? && now - refreshedAt.value <= limits.cacheSeconds {
        return Served(keys[kid]);
      }
      var isFresh := refreshedAt.Some? && entered - refreshedAt.value <= limits.cacheSeconds;
      if kid in keys && isFresh {
        return Served(keys[kid]);
      }
      var coolingDown := lastRefreshAttempt.Some? && entered - lastRefreshAttempt.value < limits.cooldown;
      if coolingDown && (lastRefreshFailed || isFresh) {
        return if kid in keys || lastRefreshFailed then Unavailable else Unauthenticated;
      }
      lastRefreshAttempt := Some(entered);
      var fetched := RefreshKeys(web, entered);
      if fetched.None? {
        lastRefreshFailed := true;
        return Unavailable;
      }
      lastRefreshFailed := false;
      return if kid in keys then Served(keys[kid]) else Unauthenticated;
    }
  }

  // The answer and the fields of a lookup: before the lock at `now`, with it at `entered`, and asking the provider if need be.
  function Lookup(l: Limits, s: System, kid: string, now: real, entered: real, fetched: Option<Keys>): (System, Option<Answer>) {
    var (a, glanced) := Next(l, s, Glance(kid, now));
    if glanced.Some? then (a, glanced)
    else
      var (b, decided) := Next(l, a, Enter(kid, entered));
      if decided.Some? then (b, decided) else Next(l, b, Finish(fetched))
  }

  // A verifier in the state of the system.
  predicate Holds(v: OidcJwtVerifier, l: Limits, s: System)
    reads v
  {
    v.limits == l && v.Contents() == s.cache
  }

  /** A lookup of the verifier, by itself, is a run of the protocol: the same answer, the same fields. */
  method LookupIsRun(v: OidcJwtVerifier, ghost s: System, kid: string, now: real, entered: real, web: Web)
      returns (answer: Answer, ghost fetched: Option<Keys>)
    requires Holds(v, v.limits, s) && s.refreshing.None? && s.clock <= now <= entered
    modifies v
    ensures var (t, given) := Lookup(v.limits, s, kid, now, entered, fetched); Holds(v, v.limits, t) && given == Some(answer)
    ensures RefreshYields(web, v.construct, v.issuer, fetched) || Lookup(v.limits, s, kid, now, entered, fetched).0.times == s.times
  {
    hide RefreshYields;
    fetched := None;
    ghost var held := v.HasFreshKey(kid, now) || v.HasFreshKey(kid, entered) || v.IsHeldBack(entered);
    label before:
    answer := v.GetKey(kid, now, entered, web);
    if !held {
      fetched :| RefreshYields(web, v.construct, v.issuer, fetched)
                 && match fetched
                    case None => answer == Unavailable && v.lastRefreshFailed && v.keys == old@before(v.keys) && v.refreshedAt == old@before(v.refreshedAt)
                    case Some(found) =>
                      && answer == (if kid in found then Served(found[kid]) else Unauthenticated)
                      && !v.lastRefreshFailed && v.keys == found && v.refreshedAt == Some(entered);
    }
  }
}
