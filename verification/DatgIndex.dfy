/** The DATG index artifact: units to tokens and tokens to units, each validated against the other. */
module DatgIndex {
  import opened Sorting
  import opened Strings

  const MAX_TOKEN_ID := 10_000_000
  const MAX_UNIT := 192
  const MAX_TEXT := 512

  datatype UnitTokens = UnitTokens(unit: string, ids: seq<int>)

  datatype IndexedToken = IndexedToken(id: int, text: string, units: seq<string>)

  datatype Artifact = Artifact(vocabulary: nat, count: nat, byUnit: seq<UnitTokens>, byToken: seq<IndexedToken>)

  // sorted(set(xs)) == xs on integers.
  predicate StrictlyIncreasing(xs: seq<int>) { forall i, j :: 0 <= i < j < |xs| ==> xs[i] < xs[j] }

  // unit.strip() is not empty.
  predicate HasInk(unit: string) { exists i :: 0 <= i < |unit| && !IsSpace(unit[i]) }

  predicate ValidUnit(unit: string) { HasInk(unit) && |unit| <= MAX_UNIT }

  predicate ValidUnitTokens(x: UnitTokens) {
    && ValidUnit(x.unit) && x.ids != [] && StrictlyIncreasing(x.ids)
    && forall i :: 0 <= i < |x.ids| ==> 0 <= x.ids[i] <= MAX_TOKEN_ID
  }

  predicate ValidToken(t: IndexedToken) {
    && 0 <= t.id <= MAX_TOKEN_ID && |t.text| <= MAX_TEXT && t.units != []
    && Sorted(set u | u in t.units) == t.units
    && forall i :: 0 <= i < |t.units| ==> ValidUnit(t.units[i])
  }

  function Names(byUnit: seq<UnitTokens>): (r: seq<string>)
    ensures |r| == |byUnit| && forall i :: 0 <= i < |r| ==> r[i] == byUnit[i].unit
  {
    seq(|byUnit|, i requires 0 <= i < |byUnit| => byUnit[i].unit)
  }

  function Ids(byToken: seq<IndexedToken>): (r: seq<int>)
    ensures |r| == |byToken| && forall i :: 0 <= i < |r| ==> r[i] == byToken[i].id
  {
    seq(|byToken|, i requires 0 <= i < |byToken| => byToken[i].id)
  }

  function AllUnits(byToken: seq<IndexedToken>): (r: set<string>)
    ensures forall u :: u in r <==> exists i :: 0 <= i < |byToken| && u in byToken[i].units
  {
    set t, u | t in byToken && u in t.units :: u
  }

  predicate ListedByToken(byToken: seq<IndexedToken>, unit: string, id: int) {
    exists i :: 0 <= i < |byToken| && byToken[i].id == id && unit in byToken[i].units
  }

  predicate ListedByUnit(byUnit: seq<UnitTokens>, unit: string, id: int) {
    exists i :: 0 <= i < |byUnit| && byUnit[i].unit == unit && id in byUnit[i].ids
  }

  // The ids of the tokens that list the unit, in their order.
  function TokensUnder(byToken: seq<IndexedToken>, unit: string): seq<int> {
    if byToken == [] then []
    else (if unit in byToken[0].units then [byToken[0].id] else []) + TokensUnder(byToken[1..], unit)
  }

  // The units that list the token, in their order.
  function UnitsOf(byUnit: seq<UnitTokens>, id: int): seq<string> {
    if byUnit == [] then []
    else (if id in byUnit[0].ids then [byUnit[0].unit] else []) + UnitsOf(byUnit[1..], id)
  }

  lemma ListedByTokenStep(byToken: seq<IndexedToken>, unit: string, id: int)
    requires byToken != []
    ensures ListedByToken(byToken, unit, id) <==>
              (byToken[0].id == id && unit in byToken[0].units) || ListedByToken(byToken[1..], unit, id)
  {
    var rest := byToken[1..];
    assert forall i :: 0 <= i < |rest| ==> rest[i] == byToken[i + 1];
    if i :| 0 <= i < |byToken| && byToken[i].id == id && unit in byToken[i].units {
      assert i == 0 || rest[i - 1] == byToken[i];
    }
  }

  lemma {:induction false} TokensUnderMember(byToken: seq<IndexedToken>, unit: string, id: int)
    ensures id in TokensUnder(byToken, unit) <==> ListedByToken(byToken, unit, id)
  {
    if byToken != [] {
      hide ListedByToken;
      TokensUnderMember(byToken[1..], unit, id);
      ListedByTokenStep(byToken, unit, id);
    }
  }

  lemma ListedByUnitStep(byUnit: seq<UnitTokens>, unit: string, id: int)
    requires byUnit != []
    ensures ListedByUnit(byUnit, unit, id) <==>
              (byUnit[0].unit == unit && id in byUnit[0].ids) || ListedByUnit(byUnit[1..], unit, id)
  {
    var rest := byUnit[1..];
    assert forall i :: 0 <= i < |rest| ==> rest[i] == byUnit[i + 1];
    if i :| 0 <= i < |byUnit| && byUnit[i].unit == unit && id in byUnit[i].ids {
      assert i == 0 || rest[i - 1] == byUnit[i];
    }
  }

  lemma {:induction false} UnitsOfMember(byUnit: seq<UnitTokens>, unit: string, id: int)
    ensures unit in UnitsOf(byUnit, id) <==> ListedByUnit(byUnit, unit, id)
  {
    if byUnit != [] {
      hide ListedByUnit;
      UnitsOfMember(byUnit[1..], unit, id);
      ListedByUnitStep(byUnit, unit, id);
    }
  }

  predicate ValidTokens(vocabulary: nat, count: nat, byToken: seq<IndexedToken>) {
    && count == |byToken| <= vocabulary
    && StrictlyIncreasing(Ids(byToken))
    && forall i :: 0 <= i < |byToken| ==> ValidToken(byToken[i])
  }

  // What the validator checks, its parts included.
  predicate IsValid(a: Artifact) {
    && ValidTokens(a.vocabulary, a.count, a.byToken)
    && (forall i :: 0 <= i < |a.byUnit| ==> ValidUnitTokens(a.byUnit[i]))
    && Sorted(set u | u in Names(a.byUnit)) == Names(a.byUnit)
    && Sorted(AllUnits(a.byToken)) == Names(a.byUnit)
    && forall i :: 0 <= i < |a.byUnit| ==> a.byUnit[i].ids == TokensUnder(a.byToken, a.byUnit[i].unit)
  }

  // ---------- the limits ----------

  // A character that is not white space, and at most 192 of them.
  ghost predicate IsUnitName(unit: string) { 1 <= |unit| <= 192 && exists a, c, b :: unit == a + [c] + b && !IsSpace(c) }

  // Every fact the source asks of one token.
  ghost predicate IsToken(t: IndexedToken) {
    && 0 <= t.id <= 10_000_000 && |t.text| <= 512
    && |t.units| >= 1 && (forall k :: 0 <= k < |t.units| ==> IsUnitName(t.units[k]))
    && forall i, j :: 0 <= i < j < |t.units| ==> Less(t.units[i], t.units[j])
  }

  lemma UnitNames(unit: string)
    ensures ValidUnit(unit) <==> IsUnitName(unit)
  {
    if i :| 0 <= i < |unit| && !IsSpace(unit[i]) {
      assert unit == unit[..i] + [unit[i]] + unit[i + 1..];
    }
    if a, c, b :| unit == a + [c] + b && !IsSpace(c) {
      assert unit[|a|] == c;
    }
  }

  lemma TokenLimits(t: IndexedToken)
    ensures ValidToken(t) <==> IsToken(t)
  {
    hide Less, Sorted, IsUnitName, ValidUnit;
    forall i | 0 <= i < |t.units| ensures ValidUnit(t.units[i]) <==> IsUnitName(t.units[i]) {
      UnitNames(t.units[i]);
    }
    if Ascending(t.units) {
      AscendingIsSorted(t.units);
    }
  }

  /** The token lists that are accepted: ascending ids, as many as counted and no more than the vocabulary has, each token within its limits. */
  lemma TokensAcceptedIff(vocabulary: nat, count: nat, byToken: seq<IndexedToken>)
    ensures ValidTokens(vocabulary, count, byToken) <==>
              && |byToken| == count && count <= vocabulary
              && (forall i, j :: 0 <= i < j < |byToken| ==> byToken[i].id < byToken[j].id)
              && forall i :: 0 <= i < |byToken| ==> IsToken(byToken[i])
  {
    hide ValidToken, IsToken;
    forall i | 0 <= i < |byToken| ensures ValidToken(byToken[i]) <==> IsToken(byToken[i]) {
      TokenLimits(byToken[i]);
    }
    var ids := Ids(byToken);
    assert StrictlyIncreasing(ids) <==> forall i, j :: 0 <= i < j < |byToken| ==> byToken[i].id < byToken[j].id;
  }

  // ---------- the two directions ----------

  /** In an accepted artifact a token is listed under a unit exactly when the unit is listed under the token. */
  lemma ListedBothWays(a: Artifact, unit: string, id: int)
    requires IsValid(a)
    ensures ListedByUnit(a.byUnit, unit, id) <==> ListedByToken(a.byToken, unit, id)
  {
    hide ValidTokens, ValidUnitTokens, Sorted, TokensUnder, AllUnits, Names;
    TokensUnderMember(a.byToken, unit, id);
    if ListedByToken(a.byToken, unit, id) {
      var i := UnitIndex(a, unit, id);
      assert a.byUnit[i].ids == TokensUnder(a.byToken, unit);
    }
    if i :| 0 <= i < |a.byUnit| && a.byUnit[i].unit == unit && id in a.byUnit[i].ids {
      assert a.byUnit[i].ids == TokensUnder(a.byToken, unit);
    }
  }

  lemma UnitIndex(a: Artifact, unit: string, id: int) returns (i: nat)
    requires IsValid(a) && ListedByToken(a.byToken, unit, id)
    ensures i < |a.byUnit| && a.byUnit[i].unit == unit
  {
    hide ValidTokens, ValidUnitTokens, TokensUnder, AllUnits;
    assert unit in AllUnits(a.byToken);
    assert unit in Names(a.byUnit);
    i :| 0 <= i < |a.byUnit| && Names(a.byUnit)[i] == unit;
  }

  // The other direction, rebuilt from the tokens.
  function Transposed(byToken: seq<IndexedToken>): (r: seq<UnitTokens>)
  {
    var names := Sorted(AllUnits(byToken));
    seq(|names|, i requires 0 <= i < |names| => UnitTokens(names[i], TokensUnder(byToken, names[i])))
  }

  lemma IncreasingCons(x: int, xs: seq<int>)
    requires StrictlyIncreasing(xs) && forall y :: y in xs ==> x < y
    ensures StrictlyIncreasing([x] + xs)
  {
    assert forall k :: 0 <= k < |xs| ==> xs[k] in xs;
  }

  lemma {:induction false} TokensUnderIncreasing(byToken: seq<IndexedToken>, unit: string)
    requires StrictlyIncreasing(Ids(byToken))
    ensures StrictlyIncreasing(TokensUnder(byToken, unit))
  {
    if byToken != [] {
      var rest := byToken[1..];
      assert forall i :: 0 <= i < |rest| ==> Ids(rest)[i] == Ids(byToken)[i + 1] && byToken[0].id < rest[i].id;
      TokensUnderIncreasing(rest, unit);
      hide StrictlyIncreasing;
      forall id | id in TokensUnder(rest, unit) ensures byToken[0].id < id {
        TokensUnderMember(rest, unit, id);
      }
      IncreasingCons(byToken[0].id, TokensUnder(rest, unit));
    }
  }

  lemma TransposedIsValid(byToken: seq<IndexedToken>, vocabulary: nat, i: nat)
    requires ValidTokens(vocabulary, |byToken|, byToken) && i < |Transposed(byToken)|
    ensures ValidUnitTokens(Transposed(byToken)[i])
  {
    hide Sorted, TokensUnder, StrictlyIncreasing, HasInk, Ascending;
    var x := Transposed(byToken)[i];
    assert x.unit in Sorted(AllUnits(byToken));
    var j :| 0 <= j < |byToken| && x.unit in byToken[j].units;
    var k :| 0 <= k < |byToken[j].units| && byToken[j].units[k] == x.unit;
    assert ValidToken(byToken[j]);
    TokensUnderMember(byToken, x.unit, byToken[j].id);
    assert byToken[j].id in x.ids;
    TokensUnderIncreasing(byToken, x.unit);
    forall m | 0 <= m < |x.ids| ensures 0 <= x.ids[m] <= MAX_TOKEN_ID {
      assert x.ids[m] in x.ids;
      TokensUnderMember(byToken, x.unit, x.ids[m]);
      var t :| 0 <= t < |byToken| && byToken[t].id == x.ids[m] && x.unit in byToken[t].units;
      assert ValidToken(byToken[t]);
    }
  }

  /** The validator accepts exactly the valid token lists together with their transposition: one direction leaves no choice for the other. */
  lemma ValidIffTransposed(a: Artifact)
    ensures IsValid(a) <==> ValidTokens(a.vocabulary, a.count, a.byToken) && a.byUnit == Transposed(a.byToken)
  {
    hide ValidUnitTokens, ValidToken, HasInk, StrictlyIncreasing, Sorted;
    if ValidTokens(a.vocabulary, a.count, a.byToken) && a.byUnit == Transposed(a.byToken) {
      forall i | 0 <= i < |a.byUnit| ensures ValidUnitTokens(a.byUnit[i]) {
        TransposedIsValid(a.byToken, a.vocabulary, i);
      }
      assert Names(a.byUnit) == Sorted(AllUnits(a.byToken));
      AscendingIsSorted(Names(a.byUnit));
    }
    if IsValid(a) {
      assert a.byUnit == Transposed(a.byToken);
    }
  }

  lemma AscendingCons(x: string, xs: seq<string>)
    requires Ascending(xs) && forall y :: y in xs ==> Less(x, y)
    ensures Ascending([x] + xs)
  {
    hide Less;
    assert forall k :: 0 <= k < |xs| ==> xs[k] in xs;
  }

  // The first name comes before the others, which ascend.
  lemma NamesTail(byUnit: seq<UnitTokens>)
    requires Ascending(Names(byUnit)) && byUnit != []
    ensures Ascending(Names(byUnit[1..])) && forall i :: 0 <= i < |byUnit[1..]| ==> Less(byUnit[0].unit, byUnit[1..][i].unit)
  {
    hide Less;
    var names, rest := Names(byUnit), Names(byUnit[1..]);
    assert forall i :: 0 <= i < |rest| ==> rest[i] == names[i + 1];
    forall i | 0 <= i < |rest| ensures Less(byUnit[0].unit, byUnit[1..][i].unit) {
      assert Less(names[0], names[i + 1]);
    }
  }

  lemma {:induction false} UnitsOfAscending(byUnit: seq<UnitTokens>, id: int)
    requires Ascending(Names(byUnit))
    ensures Ascending(UnitsOf(byUnit, id))
  {
    hide Less, Names, Ascending;
    if byUnit == [] {
      NoneAscends();
    } else {
      var rest := byUnit[1..];
      NamesTail(byUnit);
      UnitsOfAscending(rest, id);
      forall u | u in UnitsOf(rest, id) ensures Less(byUnit[0].unit, u) {
        UnitsOfMember(rest, u, id);
      }
      AscendingCons(byUnit[0].unit, UnitsOf(rest, id));
      assert [] + UnitsOf(rest, id) == UnitsOf(rest, id);
    }
  }

  lemma NoneAscends()
    ensures Ascending([])
  {
  }

  lemma UnitsOfToken(a: Artifact, j: nat, unit: string)
    requires IsValid(a) && j < |a.byToken|
    ensures unit in UnitsOf(a.byUnit, a.byToken[j].id) <==> unit in a.byToken[j].units
  {
    hide TokensUnder, UnitsOf, ListedByUnit, ValidToken, ValidUnitTokens, StrictlyIncreasing, Sorted, AllUnits, Names;
    OneTokenPerId(a.byToken, j);
    ListedBothWays(a, unit, a.byToken[j].id);
    UnitsOfMember(a.byUnit, unit, a.byToken[j].id);
  }

  /** Transposing twice returns the sorted unit list of every token. */
  lemma TransposingTwiceReturns(a: Artifact, j: nat)
    requires IsValid(a) && j < |a.byToken|
    ensures UnitsOf(a.byUnit, a.byToken[j].id) == a.byToken[j].units
  {
    hide TokensUnder, UnitsOf, Less, HasInk, ValidUnitTokens, StrictlyIncreasing, Ascending, AllUnits, Names, Sorted;
    var t := a.byToken[j];
    assert ValidToken(t);
    UnitsOfAscending(a.byUnit, t.id);
    AscendingIsSorted(UnitsOf(a.byUnit, t.id));
    forall unit ensures unit in UnitsOf(a.byUnit, t.id) <==> unit in t.units {
      UnitsOfToken(a, j, unit);
    }
    hide IsValid;
    assert (set u | u in UnitsOf(a.byUnit, t.id)) == (set u | u in t.units);
  }

  lemma OneTokenPerId(byToken: seq<IndexedToken>, j: nat)
    requires StrictlyIncreasing(Ids(byToken)) && j < |byToken|
    ensures forall i :: 0 <= i < |byToken| && byToken[i].id == byToken[j].id ==> i == j
  {
    var ids := Ids(byToken);
    assert forall i :: 0 <= i < |byToken| ==> ids[i] == byToken[i].id;
    assert forall i :: 0 <= i < j ==> ids[i] < ids[j];
    assert forall i :: j < i < |byToken| ==> ids[j] < ids[i];
  }

  lemma {:induction false} IncreasingAgree(a: seq<int>, b: seq<int>)
    requires StrictlyIncreasing(a) && StrictlyIncreasing(b) && forall x :: x in a <==> x in b
    ensures a == b
  {
    assert a != [] ==> a[0] in a && a[0] in b;
    assert b != [] ==> b[0] in b && b[0] in a;
    if a != [] {
      assert forall k :: 0 < k < |a| ==> a[0] < a[k];
      assert forall k :: 0 < k < |b| ==> b[0] < b[k];
      assert a[0] == b[0];
      assert a == [a[0]] + a[1..] && b == [b[0]] + b[1..];
      assert a[0] !in a[1..] && b[0] !in b[1..];
      assert forall x :: x in a[1..] <==> x in a && x != a[0];
      assert forall x :: x in b[1..] <==> x in b && x != b[0];
      IncreasingAgree(a[1..], b[1..]);
    }
  }

  lemma ListedIds(a: Artifact, id: int)
    requires IsValid(a)
    ensures id in Ids(a.byToken) <==> exists unit :: ListedByUnit(a.byUnit, unit, id)
  {
    hide TokensUnder, Sorted, ValidUnitTokens, StrictlyIncreasing, HasInk, ListedByUnit, AllUnits, Names;
    if id in Ids(a.byToken) {
      var j :| 0 <= j < |a.byToken| && Ids(a.byToken)[j] == id;
      assert ValidToken(a.byToken[j]);
      var u := a.byToken[j].units[0];
      assert ListedByToken(a.byToken, u, id);
      ListedBothWays(a, u, id);
    }
    if unit :| ListedByUnit(a.byUnit, unit, id) {
      ListedBothWays(a, unit, id);
      var j :| 0 <= j < |a.byToken| && a.byToken[j].id == id;
      assert Ids(a.byToken)[j] == id;
    }
  }

  /** Two accepted artifacts with the same units-to-tokens direction list the same tokens with the same units. */
  lemma UnitsDetermineTokens(a: Artifact, b: Artifact)
    requires IsValid(a) && IsValid(b) && a.byUnit == b.byUnit
    ensures |a.byToken| == |b.byToken|
    ensures forall j :: 0 <= j < |a.byToken| ==> a.byToken[j].id == b.byToken[j].id && a.byToken[j].units == b.byToken[j].units
  {
    forall id ensures id in Ids(a.byToken) <==> id in Ids(b.byToken) {
      ListedIds(a, id);
      ListedIds(b, id);
    }
    IncreasingAgree(Ids(a.byToken), Ids(b.byToken));
    forall j | 0 <= j < |a.byToken| ensures a.byToken[j].id == b.byToken[j].id && a.byToken[j].units == b.byToken[j].units {
      assert Ids(a.byToken)[j] == Ids(b.byToken)[j];
      TransposingTwiceReturns(a, j);
      TransposingTwiceReturns(b, j);
    }
  }
}
