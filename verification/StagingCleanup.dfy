/** Sweeping the staging namespace page by page while the pages delete what they list. */
module StagingCleanup {
  import opened Wrappers
  import opened Sorting
  import opened ObjectStore
  import opened ArtifactKeys

  datatype Report = Report(scanned: nat, deleted: nat, deferred: nat, failed: nat, nextCursor: Option<string>)

  predicate IsExpired(m: Objects, key: string, cutoff: int) { key in m && m[key].descriptor.modifiedAt <= cutoff }

  // The listed keys that a page removes: those old enough, except where deleting fails.
  function Removed(m: Objects, keys: seq<string>, cutoff: int, fails: string -> bool): set<string> {
    set key | key in keys && IsExpired(m, key, cutoff) && !fails(key)
  }

  // Deletes failing on every key, or on none.
  function Always(b: bool): string -> bool { _ => b }

  lemma RemovedOnly(m: Objects, keys: seq<string>, cutoff: int, fails: string -> bool)
    ensures forall key :: key in Removed(m, keys, cutoff, fails) ==> key in keys
  {
  }

  function Page(m: Objects, cursor: Option<string>, limit: nat): seq<string> {
    Listing(m.Keys, STAGING_PREFIX, limit, cursor)
  }

  function NextCursor(page: seq<string>, limit: nat): Option<string> {
    if |page| == limit && limit > 0 then Some(page[limit - 1]) else None
  }

  function CountExpired(m: Objects, keys: seq<string>, cutoff: int): (r: nat)
    ensures r <= |keys|
  {
    if keys == [] then 0
    else CountExpired(m, keys[..|keys| - 1], cutoff) + if IsExpired(m, keys[|keys| - 1], cutoff) then 1 else 0
  }

  // The keys still ahead of a cursor.
  function Ahead(m: Objects, cursor: Option<string>): seq<string> {
    Sorted(Remaining(m.Keys, STAGING_PREFIX, cursor))
  }

  lemma PageIsPrefix(m: Objects, cursor: Option<string>, limit: nat)
    requires limit > 0
    ensures var page := Page(m, cursor, limit);
            && page <= Ahead(m, cursor)
            && (forall key :: key in page ==> key in m)
            && (NextCursor(page, limit).None? ==> page == Ahead(m, cursor))
            && (NextCursor(page, limit).Some? ==> Ahead(m, NextCursor(page, limit)) == Ahead(m, cursor)[|page|..])
  {
    hide Sorted;
    var page := Page(m, cursor, limit);
    assert forall key :: key in page ==> key in Ahead(m, cursor);
    hide Remaining;
    if NextCursor(page, limit).Some? {
      RemainingAfter(m.Keys, STAGING_PREFIX, cursor, |page|);
    }
  }

  // Nothing is removed outside the staging namespace, and nothing young.
  lemma RemovedAreStaged(m: Objects, cursor: Option<string>, limit: nat, cutoff: int, fails: string -> bool)
    ensures forall key :: key in Removed(m, Page(m, cursor, limit), cutoff, fails) ==>
              "staging/v1/sha256/" <= key && key in m && m[key].descriptor.modifiedAt <= cutoff
  {
    hide Sorted, Less;
    forall key | key in Page(m, cursor, limit) ensures STAGING_PREFIX <= key {
      assert key in Sorted(Remaining(m.Keys, STAGING_PREFIX, cursor));
    }
  }

  // Following the cursor from one page to the next, with one cutoff: all that is scanned, and what is left.
  function Sweep(m: Objects, cursor: Option<string>, limit: nat, cutoff: int, fails: string -> bool): (r: (Objects, seq<string>))
    requires limit > 0
    decreases |Ahead(m, cursor)|
  {
    var page := Page(m, cursor, limit);
    var m' := m - Removed(m, page, cutoff, fails);
    match NextCursor(page, limit)
    case None => (m', page)
    case Some(next) =>
      PageIsPrefix(m, cursor, limit);
      DeletedBehind(m, cursor, limit, cutoff, fails);
      var (rest, scanned) := Sweep(m', Some(next), limit, cutoff, fails);
      (rest, page + scanned)
  }

  // What a page deletes is behind its own cursor, so the pages after it are not affected.
  lemma DeletedBehind(m: Objects, cursor: Option<string>, limit: nat, cutoff: int, fails: string -> bool)
    requires limit > 0 && NextCursor(Page(m, cursor, limit), limit).Some?
    ensures var page := Page(m, cursor, limit);
            Ahead(m - Removed(m, page, cutoff, fails), NextCursor(page, limit)) == Ahead(m, NextCursor(page, limit))
  {
    hide Sorted;
    var page := Page(m, cursor, limit);
    var next := NextCursor(page, limit);
    var all := Ahead(m, cursor);
    PageIsPrefix(m, cursor, limit);
    forall key | key in page ensures key !in Remaining(m.Keys, STAGING_PREFIX, next) {
      var i :| 0 <= i < |page| && page[i] == key;
      AfterPosition(all, |page|, i);
    }
    var m' := m - Removed(m, page, cutoff, fails);
    assert Remaining(m'.Keys, STAGING_PREFIX, next) == Remaining(m.Keys, STAGING_PREFIX, next);
  }

  /**
   * However large its pages, a whole sweep scans every staging key ahead of the cursor once, in
   * order, and removes exactly those that are old enough and could be deleted.
   */
  lemma {:induction false} SweepIsComplete(m: Objects, cursor: Option<string>, limit: nat, cutoff: int, fails: string -> bool)
    requires limit > 0
    ensures var (rest, scanned) := Sweep(m, cursor, limit, cutoff, fails);
            scanned == Ahead(m, cursor) && rest == m - Removed(m, Ahead(m, cursor), cutoff, fails)
    decreases |Ahead(m, cursor)|
  {
    hide Sorted, Remaining, Page;
    var page := Page(m, cursor, limit);
    var all := Ahead(m, cursor);
    var m' := m - Removed(m, page, cutoff, fails);
    PageIsPrefix(m, cursor, limit);
    var next := NextCursor(page, limit);
    if next.Some? {
      DeletedBehind(m, cursor, limit, cutoff, fails);
      SweepIsComplete(m', next, limit, cutoff, fails);
      var rest := all[|page|..];
      assert all == page + rest;
      RemovedInParts(m, page, rest, cutoff, fails);
    }
  }

  lemma RemovedInParts(m: Objects, page: seq<string>, rest: seq<string>, cutoff: int, fails: string -> bool)
    requires Ascending(page + rest)
    ensures var m' := m - Removed(m, page, cutoff, fails);
            m' - Removed(m', rest, cutoff, fails) == m - Removed(m, page + rest, cutoff, fails)
  {
    AscendingDistinct(page + rest);
    var m' := m - Removed(m, page, cutoff, fails);
    forall key | key in rest ensures key !in page {
      var j :| 0 <= j < |rest| && rest[j] == key;
      assert (page + rest)[|page| + j] == key;
      assert forall i :: 0 <= i < |page| ==> (page + rest)[i] == page[i];
    }
    assert Removed(m, page + rest, cutoff, fails) == Removed(m, page, cutoff, fails) + Removed(m', rest, cutoff, fails);
  }

  /** Absent failures a sweep from the start leaves, in staging, exactly the younger objects, and all objects elsewhere. */
  lemma SweepLeavesYounger(m: Objects, limit: nat, cutoff: int)
    requires limit > 0
    ensures var rest := Sweep(m, None, limit, cutoff, Always(false)).0;
            && (forall key :: key in rest <==> key in m && !("staging/v1/sha256/" <= key && m[key].descriptor.modifiedAt <= cutoff))
            && forall key :: key in rest ==> rest[key] == m[key]
  {
    hide Sorted, Sweep;
    SweepIsComplete(m, None, limit, cutoff, Always(false));
  }

  lemma RemovedStep(m: Objects, keys: seq<string>, i: nat, cutoff: int, fails: string -> bool)
    requires i < |keys|
    ensures Removed(m, keys[..i + 1], cutoff, fails)
            == Removed(m, keys[..i], cutoff, fails) + if IsExpired(m, keys[i], cutoff) && !fails(keys[i]) then {keys[i]} else {}
    ensures CountExpired(m, keys[..i + 1], cutoff)
            == CountExpired(m, keys[..i], cutoff) + if IsExpired(m, keys[i], cutoff) then 1 else 0
  {
    assert keys[..i + 1][..i] == keys[..i];
    assert keys[..i + 1] == keys[..i] + [keys[i]];
  }
}
