/** str.count and str.replace: non-overlapping occurrences, found from the left. */
module TextReplace {
  import opened Wrappers

  predicate OccursAt(s: string, pat: string, p: nat) { p + |pat| <= |s| && s[p..p + |pat|] == pat }

  // str.find
  function IndexOf(s: string, pat: string): (r: Option<nat>)
    ensures r.Some? ==> OccursAt(s, pat, r.value) && forall q: nat :: q < r.value ==> !OccursAt(s, pat, q)
    ensures r.None? ==> forall q: nat :: !OccursAt(s, pat, q)
  {
    Search(s, pat, 0)
  }

  function Search(s: string, pat: string, from: nat): (r: Option<nat>)
    requires from <= |s| + 1
    ensures r.Some? ==> from <= r.value && OccursAt(s, pat, r.value) && forall q: nat :: from <= q < r.value ==> !OccursAt(s, pat, q)
    ensures r.None? ==> forall q: nat :: from <= q ==> !OccursAt(s, pat, q)
    decreases |s| + 1 - from
  {
    if from > |s| then None
    else if OccursAt(s, pat, from) then Some(from)
    else Search(s, pat, from + 1)
  }

  function Count(s: string, pat: string): nat
    requires pat != ""
    decreases |s|
  {
    match IndexOf(s, pat)
    case None => 0
    case Some(p) => 1 + Count(s[p + |pat|..], pat)
  }

  function ReplaceAll(s: string, pat: string, repl: string): string
    requires pat != ""
    decreases |s|
  {
    match IndexOf(s, pat)
    case None => s
    case Some(p) => s[..p] + repl + ReplaceAll(s[p + |pat|..], pat, repl)
  }

  lemma {:induction false} ReplaceLength(s: string, pat: string, repl: string)
    requires pat != ""
    ensures |ReplaceAll(s, pat, repl)| == |s| + Count(s, pat) * (|repl| - |pat|)
    decreases |s|
  {
    hide Search, IndexOf;
    var i := IndexOf(s, pat);
    if i.Some? {
      var rest := s[i.value + |pat|..];
      ReplaceLength(rest, pat, repl);
      assert (1 + Count(rest, pat)) * (|repl| - |pat|) == (|repl| - |pat|) + Count(rest, pat) * (|repl| - |pat|);
    }
  }

  /** With one occurrence, replacing rewrites it and keeps what is before and after. */
  lemma ReplaceOnce(s: string, pat: string, repl: string) returns (p: nat)
    requires pat != "" && Count(s, pat) == 1
    ensures IndexOf(s, pat) == Some(p) && p + |pat| <= |s|
    ensures s == s[..p] + pat + s[p + |pat|..]
    ensures ReplaceAll(s, pat, repl) == s[..p] + repl + s[p + |pat|..]
  {
    p := IndexOf(s, pat).value;
    assert s[p..p + |pat|] == pat;
  }

  // ---------- undoing a single replacement ----------

  // A proper suffix that is also a prefix has at most e characters, so that two occurrences share no more.
  predicate BordersWithin(s: string, e: nat) { forall k :: 0 < k < |s| - e ==> s[k..] != s[..|s| - k] }

  // Two overlapping occurrences show a border.
  lemma Overlap(s: string, pat: string, p: nat, q: nat)
    requires OccursAt(s, pat, p) && OccursAt(s, pat, q) && p < q < p + |pat|
    ensures pat[q - p..] == pat[..|pat| - (q - p)]
  {
    var k := q - p;
    assert pat[k..] == s[p..p + |pat|][k..] == s[q..p + |pat|];
    assert pat[..|pat| - k] == s[q..q + |pat|][..|pat| - k] == s[q..p + |pat|];
  }

  lemma OccurrencesApart(s: string, pat: string, p: nat, q: nat, e: nat)
    requires BordersWithin(pat, e) && e < |pat| && OccursAt(s, pat, p) && OccursAt(s, pat, q) && p < q
    ensures p + |pat| <= q + e
  {
    if q + e < p + |pat| {
      Overlap(s, pat, p, q);
    }
  }

  lemma OccursLater(s: string, pat: string, from: nat, q: nat)
    requires from <= q && OccursAt(s, pat, q)
    ensures OccursAt(s[from..], pat, q - from)
  {
    assert s[from..][q - from..q - from + |pat|] == s[q..q + |pat|];
  }

  // An occurrence that ends within a prefix is one of the prefix.
  lemma OccursEarlier(s: string, pat: string, upTo: nat, q: nat)
    requires upTo <= |s| && q + |pat| <= upTo
    ensures OccursAt(s, pat, q) <==> OccursAt(s[..upTo], pat, q)
  {
    assert s[..upTo][q..q + |pat|] == s[q..q + |pat|];
  }

  // The text `after` occurs neither before the only `before`, up to the e characters they share, nor behind it.
  predicate ClearAround(s: string, before: string, after: string, e: nat)
    requires before != "" && e <= |before| && Count(s, before) == 1
  {
    var p := IndexOf(s, before).value;
    IndexOf(s[..p + e], after).None? && IndexOf(s[p + |before|..], after).None?
  }

  // Sliding one text over the other by a shared border never gives the same text twice.
  predicate Untangled(before: string, after: string, e: nat)
    requires e < |after|
  {
    forall m :: 0 < m <= e ==> after[..|after| - m] + before != before + after[m..]
  }

  /**
   * Undoing a single replacement by replacing back gives the original text exactly when the new
   * text was nowhere else in it; up to e characters may be shared by two occurrences.
   */
  lemma UndoRestores(s: string, before: string, after: string, e: nat)
    requires before != "" && |before| != |after| && e <= |before| && e < |after| && before[..e] == after[..e]
    requires BordersWithin(after, e) && Untangled(before, after, e)
    requires Count(s, before) == 1
    ensures ReplaceAll(ReplaceAll(s, before, after), after, before) == s <==> ClearAround(s, before, after, e)
  {
    hide BordersWithin, Untangled, ReplaceAll, Count, Search, IndexOf, ClearAround;
    var edited := ReplaceAll(s, before, after);
    var p := ReplaceOnce(s, before, after);
    assert edited[p..p + |after|] == after;
    assert OccursAt(edited, after, p);
    assert edited[p + |after|..] == s[p + |before|..];
    assert edited[..p + e] == s[..p + e] by {
      assert s[..p + e] == s[..p] + before[..e] && edited[..p + e] == s[..p] + after[..e];
    }
    var i := IndexOf(edited, after).value;
    if i < p {
      FoundEarly(s, before, after, e, edited, p, i);
    } else {
      FoundInPlace(s, before, after, e, edited, p);
    }
  }

  // The new text is found first where it was put.
  lemma FoundInPlace(s: string, before: string, after: string, e: nat, edited: string, p: nat)
    requires before != "" && |before| != |after| && e <= |before| && e < |after| && Count(s, before) == 1
    requires IndexOf(s, before) == Some(p) && IndexOf(edited, after) == Some(p)
    requires edited[..p + e] == s[..p + e] && edited[p + |after|..] == s[p + |before|..] && |edited| == |s| + |after| - |before|
    requires s == s[..p] + before + s[p + |before|..]
    ensures ReplaceAll(edited, after, before) == s <==> ClearAround(s, before, after, e)
  {
    hide Search, IndexOf, ReplaceAll, Count, OccursAt, ClearAround;
    OccursFits(s, before, p);
    OccursFits(edited, after, p);
    ClearMeans(s, before, after, e, p);
    if IndexOf(s[..p + e], after).Some? {
      var q := IndexOf(s[..p + e], after).value;
      OccursFits(s[..p + e], after, q);
      OccursEarlier(edited, after, p + e, q);
      assert false;
    }
    ReplaceRest(s, before, after, edited, p, s[p + |before|..]);
    assert edited[..p] == edited[..p + e][..p] == s[..p];
  }

  lemma ClearMeans(s: string, before: string, after: string, e: nat, p: nat)
    requires before != "" && e <= |before| && Count(s, before) == 1 && IndexOf(s, before) == Some(p) && p + |before| <= |s|
    ensures ClearAround(s, before, after, e) <==> IndexOf(s[..p + e], after).None? && IndexOf(s[p + |before|..], after).None?
  {
    hide Search, IndexOf, Count, OccursAt;
  }

  // Undoing the first replacement, the rest stays as it is exactly when the new text is not in it.
  lemma ReplaceRest(s: string, before: string, after: string, edited: string, p: nat, rest: string)
    requires after != "" && |before| != |after| && IndexOf(edited, after) == Some(p) && p + |after| <= |edited|
    requires edited[p + |after|..] == rest && p <= |s| && s == s[..p] + before + rest
    ensures edited[..p] == s[..p] ==> (ReplaceAll(edited, after, before) == s <==> IndexOf(rest, after).None?)
  {
    hide Search, IndexOf, ReplaceAll, Count, OccursAt;
    ReplaceStep(edited, after, before, p);
    if IndexOf(rest, after).None? {
      ReplaceNothing(rest, after, before);
    } else {
      CountFound(rest, after);
      ReplaceLength(rest, after, before);
      NotNothing(Count(rest, after), |before| - |after|);
    }
  }

  lemma CountFound(s: string, pat: string)
    requires pat != "" && IndexOf(s, pat).Some?
    ensures Count(s, pat) > 0
  {
    hide Search, IndexOf, OccursAt;
  }

  // The new text is found first before the place where it was put.
  lemma FoundEarly(s: string, before: string, after: string, e: nat, edited: string, p: nat, i: nat)
    requires before != "" && |before| != |after| && e <= |before| && e < |after| && Count(s, before) == 1
    requires BordersWithin(after, e) && Untangled(before, after, e)
    requires IndexOf(s, before) == Some(p) && IndexOf(edited, after) == Some(i) && i < p && OccursAt(edited, after, p)
    requires p + e <= |edited| && edited[..p + e] == s[..p + e] && |edited| == |s| + |after| - |before|
    ensures ReplaceAll(edited, after, before) != s && !ClearAround(s, before, after, e)
  {
    hide ReplaceAll, Count, BordersWithin, Untangled, Search, IndexOf, OccursAt, ClearAround;
    OccursFits(edited, after, i);
    OccursFits(s, before, p);
    OccurrencesApart(edited, after, i, p, e);
    OccursEarlier(edited, after, p + e, i);
    NotClear(s, before, after, e, p, i);
    SamePrefix(edited, s, p + e, p);
    EarlyNotRestored(s, before, after, e, edited, p, i);
  }

  lemma EarlyNotRestored(s: string, before: string, after: string, e: nat, edited: string, p: nat, i: nat)
    requires before != "" && |before| != |after| && e <= |before| && e < |after| && Untangled(before, after, e)
    requires IndexOf(s, before) == Some(p) && IndexOf(edited, after) == Some(i) && i < p && OccursAt(edited, after, p)
    requires i + |after| <= p + e && i + |after| <= |edited| && |edited| == |s| + |after| - |before|
    requires p <= |s| && edited[..p] == s[..p]
    ensures ReplaceAll(edited, after, before) != s
  {
    hide ReplaceAll, Untangled, Search, IndexOf, OccursAt;
    if IndexOf(edited[i + |after|..], after).Some? {
      FoundTwice(edited, after, before, i);
    } else {
      FoundOverlapping(s, before, after, e, edited, p, i);
    }
  }

  lemma NotClear(s: string, before: string, after: string, e: nat, p: nat, i: nat)
    requires before != "" && e <= |before| && Count(s, before) == 1 && IndexOf(s, before) == Some(p) && p + e <= |s|
    requires OccursAt(s[..p + e], after, i)
    ensures !ClearAround(s, before, after, e)
  {
    hide Count, Search, IndexOf, OccursAt;
  }

  // It overlaps the place where it was put, and undoing would slide the old text.
  lemma FoundOverlapping(s: string, before: string, after: string, e: nat, edited: string, p: nat, i: nat)
    requires before != "" && e <= |before| && e < |after| && Untangled(before, after, e)
    requires IndexOf(s, before) == Some(p) && IndexOf(edited, after) == Some(i) && i < p && OccursAt(edited, after, p)
    requires i + |after| <= p + e && i + |after| <= |edited| && p <= |s| && edited[..p] == s[..p]
    requires IndexOf(edited[i + |after|..], after).None?
    ensures ReplaceAll(edited, after, before) != s
  {
    hide ReplaceAll, Count, Untangled, Search, IndexOf, OccursAt;
    if p >= i + |after| {
      OccursLater(edited, after, i + |after|, p);
      assert false;
    }
    hide ClearAround;
    var m := i + |after| - p;
    ReplaceStep(edited, after, before, i);
    ReplaceNothing(edited[i + |after|..], after, before);
    Slide(s, before, after, edited, p, i, m);
    NoSlide(before, after, e, m);
  }

  lemma SamePrefix(a: string, b: string, n: nat, k: nat)
    requires k <= n <= |a| && n <= |b| && a[..n] == b[..n]
    ensures a[..k] == b[..k]
  {
    assert a[..k] == a[..n][..k] && b[..k] == b[..n][..k];
  }

  lemma FoundTwice(s: string, pat: string, repl: string, i: nat)
    requires pat != "" && |pat| != |repl| && IndexOf(s, pat) == Some(i) && i + |pat| <= |s| && IndexOf(s[i + |pat|..], pat).Some?
    ensures |ReplaceAll(s, pat, repl)| != |s| + |repl| - |pat|
  {
    hide ReplaceAll, Count, Search, IndexOf, OccursAt;
    var rest := s[i + |pat|..];
    ReplaceStep(s, pat, repl, i);
    CountFound(rest, pat);
    ReplaceLength(rest, pat, repl);
    NotNothing(Count(rest, pat), |repl| - |pat|);
  }

  lemma NoSlide(before: string, after: string, e: nat, m: nat)
    requires 0 < m <= e < |after| && Untangled(before, after, e)
    ensures after[..|after| - m] + before != before + after[m..]
  {
  }

  lemma ReplaceStep(s: string, pat: string, repl: string, i: nat)
    requires pat != "" && IndexOf(s, pat) == Some(i)
    ensures ReplaceAll(s, pat, repl) == s[..i] + repl + ReplaceAll(s[i + |pat|..], pat, repl)
  {
    hide Search, IndexOf, OccursAt;
  }

  lemma ReplaceNothing(s: string, pat: string, repl: string)
    requires pat != "" && IndexOf(s, pat).None?
    ensures ReplaceAll(s, pat, repl) == s
  {
    hide Search, IndexOf, OccursAt;
  }

  lemma OccursFits(s: string, pat: string, p: nat)
    requires OccursAt(s, pat, p)
    ensures p + |pat| <= |s|
  {
  }

  // What equality of the undone text with the original says about the overlapping part.
  lemma Slide(s: string, before: string, after: string, edited: string, p: nat, i: nat, m: nat)
    requires 0 < m < |after| && i + |after| == p + m && m <= |before|
    requires OccursAt(edited, after, i) && OccursAt(edited, after, p) && OccursAt(s, before, p) && edited[..p] == s[..p]
    ensures edited[..i] + before + edited[i + |after|..] == s ==> after[..|after| - m] + before == before + after[m..]
  {
    if edited[..i] + before + edited[i + |after|..] == s {
      SlideFrom(s, before, after, edited, p, i, m);
      SlideTo(before, after, edited, p, i, m, s);
    }
  }

  // The stretch from i on, seen in the original text.
  lemma SlideFrom(s: string, before: string, after: string, edited: string, p: nat, i: nat, m: nat)
    requires 0 < m < |after| && i + |after| == p + m && p + |before| <= |s| && i + |after| <= |edited|
    requires edited[i..i + |after|] == after && s[p..p + |before|] == before && edited[..p] == s[..p]
    ensures s[i..p + |before|] == after[..|after| - m] + before
  {
    assert s[i..p] == s[..p][i..] == edited[..p][i..] == edited[i..i + |after|][..p - i];
    assert s[i..p + |before|] == s[i..p] + s[p..p + |before|];
  }

  // The same stretch, seen in the undone text.
  lemma SlideTo(before: string, after: string, edited: string, p: nat, i: nat, m: nat, undone: string)
    requires 0 < m < |after| && i + |after| == p + m && p + |after| <= |edited|
    requires edited[p..p + |after|] == after && undone == edited[..i] + before + edited[i + |after|..]
    ensures p + |before| <= |undone| && undone[i..p + |before|] == before + after[m..]
  {
    var rest := edited[i + |after|..];
    assert rest[..p - i] == edited[p + m..p + |after|] == edited[p..p + |after|][m..];
    assert undone[i..] == before + rest;
    assert undone[i..p + |before|] == undone[i..][..p - i + |before|] == before + rest[..p - i];
  }

  lemma NotNothing(k: nat, d: int)
    requires k != 0 && d != 0
    ensures k * d != 0
  {
  }
}
