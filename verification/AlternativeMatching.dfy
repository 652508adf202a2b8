/**
 * Which new alternative an old alternative is compared with.  The comparer walks the old
 * alternatives and takes, for each, the first new one of the same identity that is still
 * available; this module says what that greedy walk amounts to, by counting.
 */
module AlternativeMatching {
  import opened Wrappers

  function Count(ids: seq<string>, id: string): nat {
    if ids == [] then 0
    else Count(ids[..|ids| - 1], id) + if ids[|ids| - 1] == id then 1 else 0
  }

  // The position of the occurrence of id that has exactly k occurrences before it.
  function Kth(ids: seq<string>, id: string, k: nat): (r: Option<nat>)
    ensures r.Some? ==> r.value < |ids| && ids[r.value] == id && Count(ids[..r.value], id) == k
    ensures r.None? ==> Count(ids, id) <= k
  {
    if ids == [] then None
    else
      var n := |ids| - 1;
      if ids[n] == id && Count(ids[..n], id) == k then Some(n)
      else
        var r := Kth(ids[..n], id, k);
        assert r.Some? ==> ids[..n][..r.value] == ids[..r.value];
        r
  }

  // The new alternative compared with old alternative i: the k-th old of an identity
  // goes with the k-th new of that identity.
  function Partner(oldIds: seq<string>, i: nat, newIds: seq<string>): (r: Option<nat>)
    requires i < |oldIds|
    ensures r.Some? ==> r.value < |newIds| && newIds[r.value] == oldIds[i]
  {
    Kth(newIds, oldIds[i], Count(oldIds[..i], oldIds[i]))
  }

  lemma {:induction false} CountMonotone(ids: seq<string>, p: nat, q: nat, id: string)
    requires p <= q <= |ids|
    ensures Count(ids[..p], id) <= Count(ids[..q], id)
    ensures p < q && ids[p] == id ==> Count(ids[..p], id) < Count(ids[..q], id)
  {
    if p < q {
      assert ids[..q][..q - 1] == ids[..q - 1];
      CountMonotone(ids, p, q - 1, id);
    }
  }

  lemma KthUnique(ids: seq<string>, p: nat)
    requires p < |ids|
    ensures Kth(ids, ids[p], Count(ids[..p], ids[p])) == Some(p)
  {
    var id := ids[p];
    var k := Count(ids[..p], id);
    CountMonotone(ids, p, |ids|, id);
    assert ids[..|ids|] == ids;
    var r := Kth(ids, id, k).value;
    if r < p {
      CountMonotone(ids, r, p, id);
    } else if p < r {
      CountMonotone(ids, p, r, id);
    }
  }

  /** Compared with itself, a list of alternatives is matched position by position. */
  lemma PartnerReflexive(ids: seq<string>, i: nat)
    requires i < |ids|
    ensures Partner(ids, i, ids) == Some(i)
  {
    KthUnique(ids, i);
  }

  /** Matching a with b and b with c matches a with c. */
  lemma PartnerTransitive(a: seq<string>, i: nat, b: seq<string>, c: seq<string>)
    requires i < |a|
    requires Partner(a, i, b).Some?
    ensures Partner(a, i, c) == Partner(b, Partner(a, i, b).value, c)
  {
  }

  /** No new alternative is used twice. */
  lemma PartnerInjective(a: seq<string>, i: nat, j: nat, b: seq<string>)
    requires i < j < |a|
    requires Partner(a, i, b).Some? && Partner(a, j, b).Some?
    ensures Partner(a, i, b) != Partner(a, j, b)
  {
    CountMonotone(a, i, j, a[i]);
  }

  // How many of the first n old alternatives with this identity are left without a partner.
  function Unmatched(a: seq<string>, n: nat, b: seq<string>, id: string): nat
    requires n <= |a|
  {
    if n == 0 then 0
    else Unmatched(a, n - 1, b, id) + if a[n - 1] == id && Partner(a, n - 1, b).None? then 1 else 0
  }

  /** Exactly the surplus of each identity is reported as removed. */
  lemma {:induction false} UnmatchedIsSurplus(a: seq<string>, n: nat, b: seq<string>, id: string)
    requires n <= |a|
    ensures Unmatched(a, n, b, id) ==
            if Count(a[..n], id) > Count(b, id) then Count(a[..n], id) - Count(b, id) else 0
  {
    if n == 0 {
      assert a[..0] == [];
    } else {
      UnmatchedIsSurplus(a, n - 1, b, id);
      assert a[..n][..n - 1] == a[..n - 1];
      if a[n - 1] == id {
        var r := Partner(a, n - 1, b);
        if r.Some? {
          CountMonotone(b, r.value, |b|, id);
          assert b[..|b|] == b;
        }
      }
    }
  }

  // ---------- the greedy walk ----------

  // After the old alternatives `seen`, exactly these positions of ids are still available.
  ghost predicate Available(positions: seq<nat>, seen: seq<string>, ids: seq<string>) {
    && (forall i, j :: 0 <= i < j < |positions| ==> positions[i] < positions[j])
    && (forall p: nat :: p in positions <==> p < |ids| && Count(seen, ids[p]) <= Count(ids[..p], ids[p]))
  }

  /** Everything is available at first. */
  lemma AvailableInitially(positions: seq<nat>, ids: seq<string>)
    requires |positions| == |ids| && forall i :: 0 <= i < |ids| ==> positions[i] == i
    ensures Available(positions, [], ids)
  {
    forall p: nat | p < |ids| ensures p in positions {
      assert positions[p] == p;
    }
  }

  /** The first available position with identity id is the counted partner. */
  lemma FirstAvailable(positions: seq<nat>, seen: seq<string>, ids: seq<string>, id: string, q: nat)
    requires Available(positions, seen, ids)
    requires q < |positions| && positions[q] < |ids| && ids[positions[q]] == id
    requires forall i :: 0 <= i < q ==> positions[i] < |ids| && ids[positions[i]] != id
    ensures Kth(ids, id, Count(seen, id)) == Some(positions[q])
  {
    var p := positions[q];
    var k := Count(seen, id);
    assert p in positions;
    assert k <= Count(ids[..p], id);
    CountMonotone(ids, p, |ids|, id);
    assert ids[..|ids|] == ids;
    var r := Kth(ids, id, k).value;
    assert r in positions;
    var t :| 0 <= t < |positions| && positions[t] == r;
    if r != p {
      assert t > q;
      CountMonotone(ids, p, r, id);
    }
  }

  /** When no available position has identity id, there is no counted partner. */
  lemma NoneAvailable(positions: seq<nat>, seen: seq<string>, ids: seq<string>, id: string)
    requires Available(positions, seen, ids)
    requires forall i :: 0 <= i < |positions| ==> positions[i] < |ids| && ids[positions[i]] != id
    ensures Kth(ids, id, Count(seen, id)) == None
  {
    assert forall p: nat :: p in positions ==> p < |ids| && ids[p] != id;
  }

  lemma RemoveAt(positions: seq<nat>, q: nat)
    requires q < |positions|
    requires forall i, j :: 0 <= i < j < |positions| ==> positions[i] < positions[j]
    ensures var rest := positions[..q] + positions[q + 1..];
            && (forall i, j :: 0 <= i < j < |rest| ==> rest[i] < rest[j])
            && forall p: nat :: p in rest <==> p in positions && p != positions[q]
  {
    var rest := positions[..q] + positions[q + 1..];
    forall p: nat | p in positions && p != positions[q] ensures p in rest {
      var t :| 0 <= t < |positions| && positions[t] == p;
      assert rest[if t < q then t else t - 1] == p;
    }
  }

  lemma CountAppend(seen: seq<string>, id: string, other: string)
    ensures Count(seen + [id], other) == Count(seen, other) + if other == id then 1 else 0
  {
    assert (seen + [id])[..|seen|] == seen;
  }

  lemma StillAvailable(seen: seq<string>, ids: seq<string>, matched: nat, p: nat)
    requires matched < |ids| && p < |ids|
    requires Count(seen, ids[matched]) == Count(ids[..matched], ids[matched])
    ensures Count(seen + [ids[matched]], ids[p]) <= Count(ids[..p], ids[p])
            <==> Count(seen, ids[p]) <= Count(ids[..p], ids[p]) && p != matched
  {
    CountAppend(seen, ids[matched], ids[p]);
    if ids[p] == ids[matched] {
      KthUnique(ids, p);
      KthUnique(ids, matched);
    }
  }

  /** Removing the match leaves exactly what is available for the next old alternative. */
  lemma AvailableAfterMatch(positions: seq<nat>, seen: seq<string>, ids: seq<string>, q: nat)
    requires Available(positions, seen, ids) && q < |positions| && positions[q] < |ids|
    requires Kth(ids, ids[positions[q]], Count(seen, ids[positions[q]])) == Some(positions[q])
    ensures Available(positions[..q] + positions[q + 1..], seen + [ids[positions[q]]], ids)
  {
    hide Count, Kth;
    RemoveAt(positions, q);
    forall p: nat | p < |ids|
      ensures Count(seen + [ids[positions[q]]], ids[p]) <= Count(ids[..p], ids[p])
              <==> Count(seen, ids[p]) <= Count(ids[..p], ids[p]) && p != positions[q]
    {
      StillAvailable(seen, ids, positions[q], p);
    }
  }

  lemma AvailableAfterMiss(positions: seq<nat>, seen: seq<string>, ids: seq<string>, id: string)
    requires Available(positions, seen, ids)
    requires forall i :: 0 <= i < |positions| ==> positions[i] < |ids| && ids[positions[i]] != id
    ensures Available(positions, seen + [id], ids)
  {
    assert (seen + [id])[..|seen|] == seen;
    assert forall p: nat :: p in positions ==> p < |ids| && ids[p] != id;
  }
}
