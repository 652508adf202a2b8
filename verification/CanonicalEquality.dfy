/** Values that differ only in the order of keys, and no others, have the same canonical encoding. */
module CanonicalEquality {
  import opened Sorting
  import opened Json
  import opened JsonParser
  import opened CanonicalJson

  function NameList(fields: seq<Field>): (r: seq<string>)
    ensures |r| == |fields| && forall i :: 0 <= i < |fields| ==> r[i] == fields[i].name
  {
    seq(|fields|, i requires 0 <= i < |fields| => fields[i].name)
  }

  function Names(fields: seq<Field>): set<string> { set n | n in NameList(fields) }

  lemma NamesAreHad(fields: seq<Field>, n: string)
    ensures n in Names(fields) <==> Has(fields, n)
  {
    if n in Names(fields) {
      var i :| 0 <= i < |fields| && NameList(fields)[i] == n;
      assert fields[i].name == n;
    }
    if Has(fields, n) {
      var i :| 0 <= i < |fields| && fields[i] == Field(n, Find(fields, n).value);
      assert NameList(fields)[i] == n;
    }
  }

  lemma NamesCount(fields: seq<Field>)
    requires DistinctNames(fields)
    ensures |Names(fields)| == |fields|
  {
    MemberCount(NameList(fields));
  }

  // Objects of the same size, one having all names of the other, have the same names.
  lemma SameNames(x: seq<Field>, y: seq<Field>)
    requires DistinctNames(x) && DistinctNames(y) && |x| == |y|
    requires forall i :: 0 <= i < |x| ==> Has(y, x[i].name)
    ensures forall j :: 0 <= j < |y| ==> Has(x, y[j].name)
  {
    hide Find;
    NamesCount(x);
    NamesCount(y);
    forall n | n in Names(x) ensures n in Names(y) {
      var i :| 0 <= i < |x| && NameList(x)[i] == n;
      NamesAreHad(y, x[i].name);
    }
    SubsetOfSameSize(Names(x), Names(y));
    forall j | 0 <= j < |y| ensures Has(x, y[j].name) {
      assert NameList(y)[j] in Names(y);
      NamesAreHad(x, y[j].name);
    }
  }

  lemma SubsetOfSameSize(a: set<string>, b: set<string>)
    requires a <= b && |a| == |b|
    ensures a == b
  {
    assert b == a + (b - a);
    assert |b| == |a| + |b - a|;
  }

  // Lists of keyed things with the same members sort alike.
  lemma SortAlike<T(!new)>(f: Field -> T, x: seq<Field>, y: seq<Field>, key: T -> string)
    requires forall g :: key(f(g)) == g.name
    requires DistinctNames(x) && DistinctNames(y)
    requires forall i :: 0 <= i < |x| ==> f(x[i]) in Map(f, y)
    requires forall j :: 0 <= j < |y| ==> f(y[j]) in Map(f, x)
    ensures SortBy(Map(f, x), key) == SortBy(Map(f, y), key)
  {
    forall t ensures t in Map(f, x) <==> t in Map(f, y) {
      if t in Map(f, x) {
        var i :| 0 <= i < |x| && Map(f, x)[i] == t;
        assert f(x[i]) in Map(f, y);
      }
      if t in Map(f, y) {
        var j :| 0 <= j < |y| && Map(f, y)[j] == t;
        assert f(y[j]) in Map(f, x);
      }
    }
    SortByCanonical(Map(f, x), Map(f, y), key);
  }

  // The same name has, in the other list, a value that encodes and normalizes alike.
  predicate AlikeField(f: Field, others: seq<Field>) {
    Has(others, f.name) && AlikeValues(f.value, Find(others, f.name).value)
  }

  predicate AlikeValues(a: Json, b: Json) { Normal(a) == Normal(b) && Encode(a) == Encode(b) }

  lemma RenderAlike(name: string, a: Json, b: Json)
    requires AlikeValues(a, b)
    ensures Render(Field(name, a)) == Render(Field(name, b)) && NormalField(Field(name, a)) == NormalField(Field(name, b))
  {
    hide Encode, Normal, Quote;
  }

  lemma AlikeIn(f: Field, y: seq<Field>)
    requires AlikeField(f, y)
    ensures Render(f) in Map(Render, y) && NormalField(f) in Map(NormalField, y)
  {
    hide AlikeValues, Render, NormalField;
    var g := Find(y, f.name).value;
    var j :| 0 <= j < |y| && y[j] == Field(f.name, g);
    RenderAlike(f.name, f.value, g);
    assert Map(Render, y)[j] == Render(f) && Map(NormalField, y)[j] == NormalField(f);
  }

  lemma AlikeBack(x: seq<Field>, y: seq<Field>, j: nat)
    requires DistinctNames(y) && j < |y| && Has(x, y[j].name)
    requires forall i :: 0 <= i < |x| ==> AlikeField(x[i], y)
    ensures Render(y[j]) in Map(Render, x) && NormalField(y[j]) in Map(NormalField, x)
  {
    hide AlikeValues, Render, NormalField;
    var i :| 0 <= i < |x| && x[i] == Field(y[j].name, Find(x, y[j].name).value);
    FindAt(y, j);
    RenderAlike(y[j].name, x[i].value, y[j].value);
    assert Map(Render, x)[i] == Render(y[j]) && Map(NormalField, x)[i] == NormalField(y[j]);
  }

  // Agreeing on every name, the two objects encode and normalize alike.
  lemma ObjectsAlike(a: Json, b: Json)
    requires a.Obj? && b.Obj? && DistinctNames(a.fields) && DistinctNames(b.fields) && |a.fields| == |b.fields|
    requires forall i :: 0 <= i < |a.fields| ==> AlikeField(a.fields[i], b.fields)
    ensures AlikeValues(a, b)
  {
    var x, y := a.fields, b.fields;
    assert forall i :: 0 <= i < |x| ==> Has(y, x[i].name);
    SameNames(x, y);
    hide AlikeField, Normal, Encode, SortBy, Render, NormalField, Join, Find, FieldName, MemberName, DumpMembers, NormalFields;
    forall i | 0 <= i < |x| ensures Render(x[i]) in Map(Render, y) && NormalField(x[i]) in Map(NormalField, y) {
      AlikeIn(x[i], y);
    }
    forall j | 0 <= j < |y| ensures Render(y[j]) in Map(Render, x) && NormalField(y[j]) in Map(NormalField, x) {
      AlikeBack(x, y, j);
    }
    RenderNames();
    SortAlike(Render, x, y, MemberName);
    SortAlike(NormalField, x, y, FieldName);
    RenderedMembers(a);
    RenderedMembers(b);
    NormalMembers(a);
    NormalMembers(b);
    ObjectDump(a);
    ObjectDump(b);
  }

  lemma RenderNames()
    ensures forall g :: MemberName(Render(g)) == g.name && FieldName(NormalField(g)) == g.name
  {
  }

  lemma {:induction false} SameEncodesAlike(a: Json, b: Json)
    requires WellFormed(a) && WellFormed(b) && Same(a, b, Exact)
    ensures AlikeValues(a, b)
    decreases a
  {
    hide Normal, Encode, AlikeValues, DumpItems, NormalItems, Find;
    match (a, b)
    case (Arr(x), Arr(y)) =>
      forall i | 0 <= i < |x| ensures AlikeValues(x[i], y[i]) {
        SameEncodesAlike(x[i], y[i]);
      }
      ArraysAlike(a, b);
    case (Obj(x), Obj(y)) =>
      forall i | 0 <= i < |x| ensures AlikeField(x[i], y) {
        assert SameField(x[i], y, Exact);
        FoundWellFormed(b, x[i].name);
        SameEncodesAlike(x[i].value, Find(y, x[i].name).value);
      }
      ObjectsAlike(a, b);
    case (_, _) => AtomsAlike(a);
  }

  lemma AtomsAlike(a: Json)
    ensures AlikeValues(a, a)
  {
  }

  lemma FoundWellFormed(j: Json, name: string)
    requires j.Obj? && WellFormed(j) && Has(j.fields, name)
    ensures WellFormed(Find(j.fields, name).value)
  {
  }

  lemma ArraysAlike(a: Json, b: Json)
    requires a.Arr? && b.Arr? && |a.items| == |b.items|
    requires forall i :: 0 <= i < |a.items| ==> AlikeValues(a.items[i], b.items[i])
    ensures AlikeValues(a, b)
  {
    assert forall i :: 0 <= i < |a.items| ==> Normal(a.items[i]) == Normal(b.items[i]) && Encode(a.items[i]) == Encode(b.items[i]);
    hide Normal, Encode, Join;
    assert NormalItems(a, 0) == NormalItems(b, 0) by { ItemDumps(a); ItemDumps(b); }
    assert DumpItems(a, 0, COMPACT) == DumpItems(b, 0, COMPACT) by { ItemDumps(a); ItemDumps(b); }
    ArrayDump(a);
    ArrayDump(b);
  }

  lemma ItemDumps(j: Json)
    requires j.Arr?
    ensures |DumpItems(j, 0, COMPACT)| == |j.items| && forall i :: 0 <= i < |j.items| ==> DumpItems(j, 0, COMPACT)[i] == Encode(j.items[i])
    ensures |NormalItems(j, 0)| == |j.items| && forall i :: 0 <= i < |j.items| ==> NormalItems(j, 0)[i] == Normal(j.items[i])
  {
    hide Normal, Dumps, DumpItems, NormalItems;
    DumpedItems(j, 0, COMPACT);
    NormalizedItems(j, 0);
  }

  predicate KeptByNormal(j: Json) { WellFormed(Normal(j)) && Same(Normal(j), j, Exact) && Same(j, Normal(j), Exact) }

  /** Sorting the keys changes nothing but their order. */
  lemma {:induction false} NormalIsSame(j: Json)
    requires WellFormed(j)
    ensures KeptByNormal(j)
  {
    match j
    case Arr(items) =>
      forall i | 0 <= i < |items| ensures KeptByNormal(items[i]) {
        NormalIsSame(items[i]);
      }
      NormalArray(j);
    case Obj(fields) =>
      forall i | 0 <= i < |fields| ensures KeptByNormal(fields[i].value) {
        NormalIsSame(fields[i].value);
      }
      NormalObject(j);
    case _ =>
  }

  lemma NormalArray(j: Json)
    requires j.Arr? && forall i :: 0 <= i < |j.items| ==> KeptByNormal(j.items[i])
    ensures KeptByNormal(j)
  {
    ItemDumps(j);
    ArrayDump(j);
    hide Normal;
    var items := NormalItems(j, 0);
    forall i | 0 <= i < |items| ensures WellFormed(items[i]) && Same(items[i], j.items[i], Exact) && Same(j.items[i], items[i], Exact) {
      assert KeptByNormal(j.items[i]);
    }
  }

  // A member of the sorted object is the normal form of a member of the object, and the other way.
  lemma SortedMember(fields: seq<Field>, sorted: seq<Field>, k: nat)
    requires DistinctNames(fields) && k < |sorted| && sorted[k] in Map(NormalField, fields)
    requires forall i :: 0 <= i < |fields| ==> KeptByNormal(fields[i].value)
    ensures WellFormed(sorted[k].value) && SameField(sorted[k], fields, Exact)
  {
    hide Normal, Find, WellFormed;
    var unsorted := Map(NormalField, fields);
    var i :| 0 <= i < |unsorted| && unsorted[i] == sorted[k];
    KeptMember(fields, i);
    FindAt(fields, i);
  }

  lemma MemberSorted(fields: seq<Field>, sorted: seq<Field>, i: nat)
    requires DistinctNames(sorted) && i < |fields| && NormalField(fields[i]) in sorted
    requires forall i :: 0 <= i < |fields| ==> KeptByNormal(fields[i].value)
    ensures SameField(fields[i], sorted, Exact)
  {
    hide Normal, Find, WellFormed;
    var k :| 0 <= k < |sorted| && sorted[k] == NormalField(fields[i]);
    KeptMember(fields, i);
    FindAt(sorted, k);
  }

  lemma KeptMember(fields: seq<Field>, i: nat)
    requires i < |fields| && forall i :: 0 <= i < |fields| ==> KeptByNormal(fields[i].value)
    ensures var v := fields[i].value; WellFormed(Normal(v)) && Same(Normal(v), v, Exact) && Same(v, Normal(v), Exact)
  {
    assert KeptByNormal(fields[i].value);
    hide Normal, WellFormed, Same;
  }

  lemma NormalObject(j: Json)
    requires j.Obj? && DistinctNames(j.fields)
    requires forall i :: 0 <= i < |j.fields| ==> KeptByNormal(j.fields[i].value)
    ensures KeptByNormal(j)
  {
    hide SortBy, Less, Find, Normal, NormalFields, KeptByNormal, Map, SameField;
    var fields := j.fields;
    var unsorted, sorted := Map(NormalField, fields), SortBy(Map(NormalField, fields), FieldName);
    NormalMembers(j);
    ObjectDump(j);
    SortByIncreasing(unsorted, FieldName);
    MultisetMembers(sorted, unsorted);
    SortedDistinct(sorted);
    hide Increasing;
    forall k | 0 <= k < |sorted| ensures WellFormed(sorted[k].value) && SameField(sorted[k], fields, Exact) {
      assert sorted[k] in sorted;
      SortedMember(fields, sorted, k);
    }
    forall i | 0 <= i < |fields| ensures SameField(fields[i], sorted, Exact) {
      assert unsorted[i] in unsorted;
      MemberSorted(fields, sorted, i);
    }
    ObjectKept(j, sorted);
  }

  lemma ObjectKept(j: Json, sorted: seq<Field>)
    requires j.Obj? && Normal(j) == Obj(sorted) && |sorted| == |j.fields| && DistinctNames(sorted)
    requires forall k :: 0 <= k < |sorted| ==> WellFormed(sorted[k].value) && SameField(sorted[k], j.fields, Exact)
    requires forall i :: 0 <= i < |j.fields| ==> SameField(j.fields[i], sorted, Exact)
    ensures KeptByNormal(j)
  {
    hide SameField, Normal;
    WellFormedObject(sorted);
    SameObjects(j.fields, sorted);
    SameObjects(sorted, j.fields);
  }

  lemma WellFormedObject(fields: seq<Field>)
    requires DistinctNames(fields) && forall k :: 0 <= k < |fields| ==> WellFormed(fields[k].value)
    ensures WellFormed(Obj(fields))
  {
  }

  lemma SameObjects(x: seq<Field>, y: seq<Field>)
    requires |x| == |y| && forall i :: 0 <= i < |x| ==> SameField(x[i], y, Exact)
    ensures Same(Obj(x), Obj(y), Exact)
  {
  }

  lemma SortedDistinct(fields: seq<Field>)
    requires Increasing(fields, FieldName)
    ensures DistinctNames(fields)
  {
    forall i, j | 0 <= i < j < |fields| ensures fields[i].name != fields[j].name {
      assert Less(FieldName(fields[i]), FieldName(fields[j]));
      LessIrreflexive(fields[i].name);
    }
  }

  /** Two values have the same canonical encoding exactly when they differ in nothing but the order of keys. */
  lemma EncodingDeterminesValue(a: Json, b: Json, valueOf: string -> real)
    requires WellFormed(a) && WellFormed(b) && Printed(a, valueOf) && Printed(b, valueOf)
    ensures Encode(a) == Encode(b) <==> Same(a, b, Exact)
  {
    hide WellFormed, Printed, Encode, Same, Normal, Loads;
    if Encode(a) == Encode(b) {
      LoadsEncoded(a, valueOf);
      LoadsEncoded(b, valueOf);
      NormalIsSame(a);
      NormalIsSame(b);
      SameTransitive(a, Normal(a), b, Exact);
    }
    if Same(a, b, Exact) {
      SameEncodesAlike(a, b);
    }
  }
}
