/** The normalized form of a run spec or a result summary, and its digest. */
module NormalizedSpec {
  import opened Digest
  import opened Wrappers
  import opened Sorting
  import opened Json
  import opened JsonParser
  import opened CanonicalJson
  import opened CanonicalEquality
  import opened RunSpec
  import opened SensitiveKeys

  // The length of the UTF-8 encoding.
  function Utf8Size(s: string): nat {
    if s == "" then 0
    else
      (if s[0] < 0x80 as char then 1 else if s[0] < 0x800 as char then 2 else if s[0] < 0x10000 as char then 3 else 4)
      + Utf8Size(s[1..])
  }

  const MAX_INTEGER_DIGITS := 4300

  // Python converts integers of at most so many digits from and to decimal.
  predicate IsConvertible(text: string) {
    || (exists i :: 0 <= i < |text| && text[i] in {'.', 'e', 'E'})
    || |text| <= if text != "" && text[0] == '-' then MAX_INTEGER_DIGITS + 1 else MAX_INTEGER_DIGITS
  }

  predicate NumbersConvertible(j: Json)
    decreases j
  {
    match j
    case Num(_, text) => IsConvertible(text)
    case Arr(items) => forall i :: 0 <= i < |items| ==> NumbersConvertible(items[i])
    case Obj(fields) => forall i :: 0 <= i < |fields| ==> NumbersConvertible(fields[i].value)
    case _ => true
  }

  predicate IsAcceptable(l: Limits, j: Json, valueOf: string -> real) {
    && j.Obj? && Admissible(j, l.depth) && Size(j) <= l.nodes
    && Printed(j, valueOf) && NumbersConvertible(j) && Utf8Size(Encode(j)) <= l.bytes
  }

  /**
   * Exactly the JSON objects within the limits are accepted; the result is the object with its
   * keys in order, and the digest of its canonical encoding.
   */
  method Normalize(l: Limits, v: Value, hash: string -> string, valueOf: string -> real) returns (r: Result<(Json, string), SpecError>)
    ensures r.Success? <==> ToJson(v, valueOf).Some? && IsAcceptable(l, ToJson(v, valueOf).value, valueOf)
    ensures r.Success? ==> r.value == (Normal(ToJson(v, valueOf).value), hash(Encode(ToJson(v, valueOf).value)))
    ensures Walk(l, v, 0, 0).Failure? ==> r == Failure(Walk(l, v, 0, 0).error)
    ensures Walk(l, v, 0, 0).Success? && r.Failure? ==>
              && ToJson(v, valueOf).Some?
              && var j := ToJson(v, valueOf).value;
                 && (r.error == NumberForm <==> !Printed(j, valueOf) || !NumbersConvertible(j))
                 && (r.error == TooLong <==> Printed(j, valueOf) && NumbersConvertible(j) && Utf8Size(Encode(j)) > l.bytes)
                 && (r.error == NotAnObject <==>
                       Printed(j, valueOf) && NumbersConvertible(j) && Utf8Size(Encode(j)) <= l.bytes && !j.Obj?)
  {
    hide Walk, Admissible, Size, Printed, NumbersConvertible, Encode, Normal, Loads, Utf8Size;
    var inspector := new Inspector(l);
    var error := inspector.Inspect(v, 0);
    WalkAccepts(l, v, 0, 0, valueOf);
    if error.Some? {
      return Failure(error.value);
    }
    var j := ToJson(v, valueOf).value;
    if !Printed(j, valueOf) || !NumbersConvertible(j) {
      return Failure(NumberForm);
    }
    var encoded := Encode(j);
    if Utf8Size(encoded) > l.bytes {
      return Failure(TooLong);
    }
    LoadsEncoded(j, valueOf);
    var normalized := Loads(encoded, valueOf).value;
    NormalKind(j);
    if !normalized.Obj? {
      return Failure(NotAnObject);
    }
    return Success((normalized, hash(encoded)));
  }

  lemma NormalKind(j: Json)
    ensures Normal(j).Obj? <==> j.Obj?
  {
  }

  // ---------- normalizing again ----------

  lemma {:induction false} SizeInsert(f: Field, fields: seq<Field>)
    ensures SizeOfFields(Insert(f, fields, FieldName)) == Size(f.value) + SizeOfFields(fields)
  {
    hide Size, Less;
    if fields != [] && Less(FieldName(fields[0]), FieldName(f)) {
      SizeInsert(f, fields[1..]);
      var rest := Insert(f, fields[1..], FieldName);
      assert ([fields[0]] + rest)[1..] == rest;
    } else {
      assert ([f] + fields)[1..] == fields;
    }
  }

  lemma {:induction false} SizeSort(fields: seq<Field>)
    ensures SizeOfFields(SortBy(fields, FieldName)) == SizeOfFields(fields)
  {
    hide Size, Insert;
    if fields != [] {
      SizeSort(fields[1..]);
      SizeInsert(fields[0], SortBy(fields[1..], FieldName));
    }
  }

  /** Sorting the keys keeps the number of values. */
  lemma {:induction false} SizeNormal(j: Json)
    ensures Size(Normal(j)) == Size(j)
    decreases j, 1, 0
  {
    hide Normal, NormalItems, NormalFields, SizeOfItems, SizeOfFields;
    match j
    case Arr(items) =>
      SizeNormalItems(j, 0);
      SizeOfArray(j);
    case Obj(fields) =>
      SizeNormalFields(j, 0);
      SizeOfObject(j);
    case _ => SizeOfAtom(j);
  }

  lemma SizeOfAtom(j: Json)
    requires !j.Arr? && !j.Obj?
    ensures Size(Normal(j)) == Size(j)
  {
  }

  lemma SizeOfArray(j: Json)
    requires j.Arr? && SizeOfItems(NormalItems(j, 0)) == SizeOfItems(j.items[0..])
    ensures Size(Normal(j)) == Size(j)
  {
    ArrayDump(j);
    assert j.items[0..] == j.items;
    hide Normal, NormalItems, SizeOfItems, Encode;
  }

  lemma SizeOfObject(j: Json)
    requires j.Obj? && SizeOfFields(NormalFields(j, 0)) == SizeOfFields(j.fields[0..])
    ensures Size(Normal(j)) == Size(j)
  {
    hide Normal, NormalFields, SizeOfFields, SortBy, Encode, Join, DumpMembers;
    ObjectDump(j);
    SizeSort(NormalFields(j, 0));
    assert j.fields[0..] == j.fields;
  }

  lemma {:induction false} SizeNormalItems(j: Json, k: nat)
    requires j.Arr? && k <= |j.items|
    ensures SizeOfItems(NormalItems(j, k)) == SizeOfItems(j.items[k..])
    decreases j, 0, |j.items| - k
  {
    hide Size, Normal;
    if k < |j.items| {
      SizeNormal(j.items[k]);
      SizeNormalItems(j, k + 1);
      assert NormalItems(j, k)[1..] == NormalItems(j, k + 1);
      assert j.items[k..][1..] == j.items[k + 1..];
    }
  }

  lemma {:induction false} SizeNormalFields(j: Json, k: nat)
    requires j.Obj? && k <= |j.fields|
    ensures SizeOfFields(NormalFields(j, k)) == SizeOfFields(j.fields[k..])
    decreases j, 0, |j.fields| - k
  {
    hide Size, Normal;
    if k < |j.fields| {
      SizeNormal(j.fields[k].value);
      SizeNormalFields(j, k + 1);
      assert NormalFields(j, k)[1..] == NormalFields(j, k + 1);
      assert j.fields[k..][1..] == j.fields[k + 1..];
    }
  }

  // Facts about the members of an object hold of the members of the sorted object.
  lemma SortedMembers(j: Json, k: nat) returns (i: nat)
    requires j.Obj? && Normal(j).Obj? && k < |Normal(j).fields|
    ensures i < |j.fields| && Normal(j).fields[k] == Field(j.fields[i].name, Normal(j.fields[i].value))
  {
    hide Normal, SortBy, NormalFields;
    var unsorted := Map(NormalField, j.fields);
    NormalMembers(j);
    ObjectDump(j);
    MultisetMembers(SortBy(unsorted, FieldName), unsorted);
    assert Normal(j).fields[k] in Normal(j).fields;
    i :| 0 <= i < |unsorted| && unsorted[i] == Normal(j).fields[k];
  }

  lemma {:induction false} AdmissibleNormal(j: Json, levels: int)
    requires Admissible(j, levels)
    ensures Admissible(Normal(j), levels)
    decreases j
  {
    match j
    case Arr(items) =>
      forall i | 0 <= i < |items| ensures Admissible(Normal(items[i]), levels - 1) {
        AdmissibleNormal(items[i], levels - 1);
      }
      ItemDumps(j);
      ArrayDump(j);
    case Obj(fields) =>
      NormalKind(j);
      forall k | 0 <= k < |Normal(j).fields| ensures AdmissibleField(Normal(j).fields[k], levels - 1) {
        var i := SortedMembers(j, k);
        AdmissibleMember(fields, i, levels - 1);
        AdmissibleNormal(fields[i].value, levels - 1);
        hide Normal;
      }
      AdmissibleObject(Normal(j), levels);
    case _ =>
  }

  lemma AdmissibleMember(fields: seq<Field>, i: nat, levels: int)
    requires i < |fields| && AdmissibleFields(fields, levels)
    ensures !IsSensitive(fields[i].name) && Admissible(fields[i].value, levels)
  {
    hide IsSensitive;
    assert AdmissibleField(fields[i], levels);
  }

  lemma AdmissibleObject(j: Json, levels: int)
    requires levels >= 0 && j.Obj? && forall k :: 0 <= k < |j.fields| ==> AdmissibleField(j.fields[k], levels - 1)
    ensures Admissible(j, levels)
  {
    hide AdmissibleField;
  }

  lemma {:induction false} PrintedNormal(j: Json, valueOf: string -> real)
    requires Printed(j, valueOf)
    ensures Printed(Normal(j), valueOf)
    decreases j
  {
    match j
    case Arr(items) =>
      forall i | 0 <= i < |items| ensures Printed(Normal(items[i]), valueOf) {
        PrintedNormal(items[i], valueOf);
      }
      ItemDumps(j);
      ArrayDump(j);
    case Obj(fields) =>
      NormalKind(j);
      forall k | 0 <= k < |Normal(j).fields| ensures Printed(Normal(j).fields[k].value, valueOf) {
        var i := SortedMembers(j, k);
        PrintedNormal(fields[i].value, valueOf);
      }
    case _ =>
  }

  lemma {:induction false} ConvertibleNormal(j: Json)
    requires NumbersConvertible(j)
    ensures NumbersConvertible(Normal(j))
    decreases j
  {
    hide IsConvertible;
    match j
    case Arr(items) =>
      forall i | 0 <= i < |items| ensures NumbersConvertible(Normal(items[i])) {
        ConvertibleNormal(items[i]);
      }
      ItemDumps(j);
      ArrayDump(j);
    case Obj(fields) =>
      NormalKind(j);
      forall k | 0 <= k < |Normal(j).fields| ensures NumbersConvertible(Normal(j).fields[k].value) {
        var i := SortedMembers(j, k);
        ConvertibleNormal(fields[i].value);
      }
    case _ =>
  }

  /** Normalizing a normalized spec changes neither it nor its digest. */
  lemma NormalizeIsIdempotent(l: Limits, j: Json, hash: string -> string, valueOf: string -> real)
    requires WellFormed(j) && IsAcceptable(l, j, valueOf)
    ensures var n := Normal(j);
            && IsAcceptable(l, n, valueOf) && Normal(n) == n && hash(Encode(n)) == hash(Encode(j))
  {
    hide Admissible, Size, Printed, NumbersConvertible, Encode, Normal, WellFormed, Same;
    SizeNormal(j);
    ConvertibleNormal(j);
    NormalKind(j);
    AdmissibleNormal(j, l.depth);
    PrintedNormal(j, valueOf);
    NormalIsSame(j);
    SameEncodesAlike(Normal(j), j);
  }

  // ---------- the digest ----------

  /** With a collision-free digest, two specs share it exactly when they are the same value, whatever order their keys were inserted in. */
  lemma DigestDeterminesSpec(l: Limits, a: Json, b: Json, hash: string -> string, valueOf: string -> real)
    requires WellFormed(a) && WellFormed(b) && IsAcceptable(l, a, valueOf) && IsAcceptable(l, b, valueOf) && CollisionFree(hash)
    ensures hash(Encode(a)) == hash(Encode(b)) <==> Same(a, b, Exact)
  {
    hide WellFormed, Printed, NumbersConvertible, Encode, Same, Admissible, Size;
    EncodingDeterminesValue(a, b, valueOf);
  }
}
