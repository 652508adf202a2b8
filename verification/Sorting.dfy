/** Python's order on strings, and `sorted` by a string key. */
module Sorting {
  predicate Less(a: string, b: string) {
    b != [] && (a == [] || a[0] < b[0] || (a[0] == b[0] && Less(a[1..], b[1..])))
  }

  lemma {:induction false} LessIrreflexive(a: string)
    ensures !Less(a, a)
  {
    if a != [] {
      LessIrreflexive(a[1..]);
    }
  }

  lemma {:induction false} LessTransitive(a: string, b: string, c: string)
    requires Less(a, b) && Less(b, c)
    ensures Less(a, c)
  {
    if a != [] && a[0] == b[0] && b[0] == c[0] {
      LessTransitive(a[1..], b[1..], c[1..]);
    }
  }

  lemma {:induction false} LessTotal(a: string, b: string)
    ensures a == b || Less(a, b) || Less(b, a)
  {
    if a != [] && b != [] && a[0] == b[0] {
      LessTotal(a[1..], b[1..]);
      assert a == [a[0]] + a[1..] && b == [b[0]] + b[1..];
    }
  }

  // Strictly increasing keys: sorted and without repetition.
  ghost predicate Increasing<T(!new)>(xs: seq<T>, key: T -> string) {
    forall i, j :: 0 <= i < j < |xs| ==> Less(key(xs[i]), key(xs[j]))
  }

  ghost predicate Distinct<T(!new)>(xs: seq<T>, key: T -> string) {
    forall i, j :: 0 <= i < j < |xs| ==> key(xs[i]) != key(xs[j])
  }

  function Insert<T(!new)>(x: T, xs: seq<T>, key: T -> string): (r: seq<T>)
    ensures multiset(r) == multiset([x]) + multiset(xs)
  {
    if xs == [] then [x]
    else if Less(key(xs[0]), key(x)) then
      assert xs == [xs[0]] + xs[1..];
      [xs[0]] + Insert(x, xs[1..], key)
    else [x] + xs
  }

  function SortBy<T(!new)>(xs: seq<T>, key: T -> string): (r: seq<T>)
    ensures multiset(r) == multiset(xs)
    ensures |r| == |xs|
  {
    if xs == [] then []
    else
      assert xs == [xs[0]] + xs[1..];
      var r := Insert(xs[0], SortBy(xs[1..], key), key);
      assert |multiset(r)| == |multiset(xs)|;
      r
  }

  lemma MultisetMembers<T>(a: seq<T>, b: seq<T>)
    requires multiset(a) == multiset(b)
    ensures forall x :: x in a <==> x in b
  {
    forall x ensures x in a <==> x in b {
      assert x in a <==> x in multiset(a);
      assert x in b <==> x in multiset(b);
    }
  }

  /** A list has as many members as positions exactly when no two are the same. */
  lemma {:induction false} MemberCount<T>(xs: seq<T>)
    ensures |set x | x in xs| <= |xs|
    ensures |set x | x in xs| == |xs| <==> forall i, j :: 0 <= i < j < |xs| ==> xs[i] != xs[j]
  {
    if xs != [] {
      var n := |xs| - 1;
      var init, last := xs[..n], xs[n];
      MemberCount(init);
      assert xs == init + [last];
      assert (set x | x in xs) == (set x | x in init) + {last};
      if last in init {
        var i :| 0 <= i < n && init[i] == last;
        assert xs[i] == xs[n];
        assert (set x | x in xs) == set x | x in init;
      } else {
        assert forall i :: 0 <= i < n ==> xs[i] == init[i] && xs[i] != last;
      }
    }
  }

  lemma {:induction false} InsertIncreasing<T(!new)>(x: T, xs: seq<T>, key: T -> string)
    requires Increasing(xs, key)
    requires forall y :: y in xs ==> key(y) != key(x)
    ensures Increasing(Insert(x, xs, key), key)
  {
    if xs != [] {
      var r := Insert(x, xs, key);
      if Less(key(xs[0]), key(x)) {
        var rest := Insert(x, xs[1..], key);
        InsertIncreasing(x, xs[1..], key);
        MultisetMembers(rest, [x] + xs[1..]);
        forall j | 1 <= j < |r| ensures Less(key(r[0]), key(r[j])) {
          assert r[j] == rest[j - 1] && rest[j - 1] in rest;
          assert rest[j - 1] in [x] + xs[1..];
        }
      } else {
        assert xs[0] in xs;
        LessTotal(key(x), key(xs[0]));
        forall j | 1 <= j < |r| ensures Less(key(r[0]), key(r[j])) {
          if j > 1 {
            LessTransitive(key(x), key(xs[0]), key(xs[j - 1]));
          }
        }
      }
    }
  }

  lemma {:induction false} SortByIncreasing<T(!new)>(xs: seq<T>, key: T -> string)
    requires Distinct(xs, key)
    ensures Increasing(SortBy(xs, key), key)
  {
    if xs != [] {
      var rest := SortBy(xs[1..], key);
      SortByIncreasing(xs[1..], key);
      MultisetMembers(rest, xs[1..]);
      forall y | y in rest ensures key(y) != key(xs[0]) {
        assert y in xs[1..];
        var k :| 0 <= k < |xs[1..]| && xs[1..][k] == y;
        assert y == xs[k + 1];
      }
      InsertIncreasing(xs[0], rest, key);
    }
  }

  /** Two strictly increasing lists with the same members are the same list. */
  lemma {:induction false} IncreasingUnique<T(!new)>(a: seq<T>, b: seq<T>, key: T -> string)
    requires Increasing(a, key) && Increasing(b, key)
    requires forall x :: x in a <==> x in b
    ensures a == b
  {
    assert forall i :: 0 <= i < |b| ==> b[i] in a;
    assert forall i :: 0 <= i < |a| ==> a[i] in b;
    if a != [] {
      var i :| 0 <= i < |b| && b[i] == a[0];
      var j :| 0 <= j < |a| && a[j] == b[0];
      if i != 0 {
        assert Less(key(b[0]), key(a[0]));
        if j != 0 { LessTransitive(key(a[0]), key(b[0]), key(a[0])); }
        LessIrreflexive(key(a[0]));
        assert false;
      }
      forall x ensures x in a[1..] <==> x in b[1..] {
        LessIrreflexive(key(a[0]));
        if x in a[1..] {
          var k :| 0 <= k < |a[1..]| && a[1..][k] == x;
          assert x == a[k + 1] && Less(key(a[0]), key(x)) && x in b;
        }
        if x in b[1..] {
          var k :| 0 <= k < |b[1..]| && b[1..][k] == x;
          assert x == b[k + 1] && Less(key(b[0]), key(x)) && x in a;
        }
      }
      IncreasingUnique(a[1..], b[1..], key);
      assert a == [a[0]] + a[1..] && b == [b[0]] + b[1..];
    }
  }

  /** `sorted` forgets the order of its argument. */
  lemma SortByCanonical<T(!new)>(a: seq<T>, b: seq<T>, key: T -> string)
    requires Distinct(a, key) && Distinct(b, key)
    requires forall x :: x in a <==> x in b
    ensures SortBy(a, key) == SortBy(b, key)
  {
    SortByIncreasing(a, key);
    SortByIncreasing(b, key);
    MultisetMembers(SortBy(a, key), a);
    MultisetMembers(SortBy(b, key), b);
    IncreasingUnique(SortBy(a, key), SortBy(b, key), key);
  }

  // ---------- sorted(set of strings) ----------

  ghost predicate Ascending(xs: seq<string>) {
    forall i, j :: 0 <= i < j < |xs| ==> Less(xs[i], xs[j])
  }

  predicate IsLeast(x: string, s: set<string>) { x in s && forall y :: y in s ==> x == y || Less(x, y) }

  lemma {:induction false} LeastExists(s: set<string>)
    requires s != {}
    ensures exists x :: IsLeast(x, s)
  {
    var x :| x in s;
    if s == {x} {
      assert IsLeast(x, s);
    } else {
      LeastExists(s - {x});
      var y :| IsLeast(y, s - {x});
      LessTotal(x, y);
      var least := if Less(x, y) then x else y;
      forall z | z in s ensures least == z || Less(least, z) {
        if z != x && z != y && least == x {
          LessTransitive(x, y, z);
        }
      }
      assert IsLeast(least, s);
    }
  }

  lemma LeastUnique(s: set<string>)
    ensures forall x, y :: IsLeast(x, s) && IsLeast(y, s) ==> x == y
  {
    forall x, y | IsLeast(x, s) && IsLeast(y, s) ensures x == y {
      if x != y {
        LessTransitive(x, y, x);
        LessIrreflexive(x);
      }
    }
  }

  function Sorted(s: set<string>): (r: seq<string>)
    ensures Ascending(r) && |r| == |s|
    ensures forall x :: x in r <==> x in s
  {
    if s == {} then []
    else
      LeastExists(s);
      LeastUnique(s);
      var x :| IsLeast(x, s);
      [x] + Sorted(s - {x})
  }

  /** An ascending list is the sorted list of its members. */
  lemma AscendingIsSorted(xs: seq<string>)
    requires Ascending(xs)
    ensures xs == Sorted(set x | x in xs)
  {
    IncreasingUnique(xs, Sorted(set x | x in xs), x => x);
  }

  // Each string comes before the next one.
  ghost predicate StepsUp(xs: seq<string>) { forall i, j :: 0 <= i && j == i + 1 && j < |xs| ==> Less(xs[i], xs[j]) }

  lemma {:induction false} StepsLess(xs: seq<string>, i: nat, j: nat)
    requires StepsUp(xs) && i < j < |xs|
    ensures Less(xs[i], xs[j])
  {
    hide Less;
    if i + 1 < j {
      StepsLess(xs, i, j - 1);
      LessTransitive(xs[i], xs[j - 1], xs[j]);
    }
  }

  lemma StepsAscend(xs: seq<string>)
    requires StepsUp(xs)
    ensures Ascending(xs)
  {
    hide Less, StepsUp;
    forall i, j | 0 <= i < j < |xs| ensures Less(xs[i], xs[j]) {
      StepsLess(xs, i, j);
    }
  }

  // The first difference decides.
  lemma {:induction false} LessAt(a: string, b: string, k: nat)
    requires k < |a| && k < |b| && a[..k] == b[..k] && a[k] < b[k]
    ensures Less(a, b)
  {
    if k > 0 {
      assert a[0] == a[..k][0] && b[0] == b[..k][0];
      assert a[1..][..k - 1] == a[..k][1..] && b[1..][..k - 1] == b[..k][1..];
      LessAt(a[1..], b[1..], k - 1);
    }
  }

  // The strings agree before position k, where one ends or has the smaller character.
  predicate DiffersAt(a: string, b: string, k: nat) {
    k <= |a| && k < |b| && a[..k] == b[..k] && (k == |a| || a[k] < b[k])
  }

  /** Strings are ordered by their first difference, and a beginning comes before what it begins. */
  lemma {:induction false} LessIff(a: string, b: string)
    ensures Less(a, b) <==> exists k :: DiffersAt(a, b, k)
  {
    if a == [] {
      assert b != [] ==> DiffersAt(a, b, 0);
    } else if b != [] {
      LessIff(a[1..], b[1..]);
      if k: nat :| DiffersAt(a[1..], b[1..], k) && a[0] == b[0] {
        assert a[..k + 1] == [a[0]] + a[1..][..k] && b[..k + 1] == [b[0]] + b[1..][..k];
        assert DiffersAt(a, b, k + 1);
      }
      if a[0] < b[0] {
        assert DiffersAt(a, b, 0);
      }
      if k: nat :| DiffersAt(a, b, k) && k > 0 {
        assert a[0] == a[..k][0] && b[0] == b[..k][0];
        assert a[1..][..k - 1] == a[..k][1..] && b[1..][..k - 1] == b[..k][1..];
        assert DiffersAt(a[1..], b[1..], k - 1);
      }
    }
  }

  lemma AscendingDistinct(xs: seq<string>)
    requires Ascending(xs)
    ensures forall i, j :: 0 <= i < j < |xs| ==> xs[i] != xs[j]
  {
    forall i, j | 0 <= i < j < |xs| ensures xs[i] != xs[j] {
      LessIrreflexive(xs[i]);
    }
  }
}
