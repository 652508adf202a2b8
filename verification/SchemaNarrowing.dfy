/**
 * Restrictions the comparer does not see: for each clause of Additive, a comparison without
 * findings and a value that only the old schema accepts.
 */
module SchemaNarrowing {
  import opened Wrappers
  import opened Json
  import opened AlternativeMatching
  import opened SchemaContract
  import opened SchemaOrder
  import opened SchemaSemantics

  // No findings, and yet v is accepted before and not after.
  ghost predicate SilentlyNarrowed(vocabulary: Vocabulary, previous: Json, current: Json, v: Json) {
    && Compatible(previous, current)
    && Accepts(vocabulary, [], previous, v)
    && !Accepts(vocabulary, [], current, v)
  }

  lemma AbsentLimits(s: seq<Field>, key: string, v: Json)
    requires Lone(s, key) && IsLoneKey(key)
    ensures LimitsAdmit(s, v)
  {
    hide IsLoneKey, Lone, Find;
    forall other | IsLimit(other) ensures Get(s, other) == Null {
      LimitIsNoLoneKey(key, other);
      LoneAbsent(s, s, key, other);
    }
  }

  lemma LimitIsNoLoneKey(key: string, other: string)
    requires IsLoneKey(key) && IsLimit(other)
    ensures other != key
  {
    assert other[0] == 'm' || |other| == 16;
    assert key[0] != 'm' && |key| < 16;
  }

  // What a schema with this one keyword leaves to be checked.
  ghost predicate LoneAccepts(vocabulary: Vocabulary, s: seq<Field>, v: Json, fuel: nat) {
    && TypeAdmits(Get(s, "type"), v) && (Has(s, "const") ==> InstanceEq(Get(s, "const"), v)) && EnumAdmits(s, v)
    && PropertiesValid(vocabulary, [], fuel, s, v) && ItemsValid(vocabulary, [], fuel, s, v) && OneOfValid(vocabulary, [], fuel, s, v)
  }

  /** A schema with one keyword accepts what that keyword accepts. */
  lemma LoneValid(vocabulary: Vocabulary, s: seq<Field>, key: string, v: Json, fuel: nat)
    requires Lone(s, key) && IsLoneKey(key)
    ensures Valid(vocabulary, [], fuel, Obj(s), v) <==> LoneAccepts(vocabulary, s, v, fuel)
  {
    hide PropertiesValid, ItemsValid, OneOfValid, TypeAdmits, EnumAdmits, LimitsAdmit, InstanceEq, Find;
    AbsentLimits(s, key, v);
    LoneAbsent(s, s, key, "$ref");
    LoneAbsent(s, s, key, "format");
    LoneAbsent(s, s, key, "pattern");
    LoneAbsent(s, s, key, "required");
    LoneAbsent(s, s, key, "anyOf");
  }

  lemma Narrowed(vocabulary: Vocabulary, o: seq<Field>, n: seq<Field>, key: string, v: Json)
    requires Lone(o, key) && Lone(n, key) && IsLoneKey(key) && Compatible(Obj(o), Obj(n))
    requires LoneAccepts(vocabulary, o, v, 0) && forall fuel: nat :: !LoneAccepts(vocabulary, n, v, fuel)
    ensures SilentlyNarrowed(vocabulary, Obj(o), Obj(n), v)
  {
    hide Valid, Compatible, LoneAccepts, Lone, IsLoneKey;
    LoneValid(vocabulary, o, key, v, 0);
    forall fuel: nat ensures !Valid(vocabulary, [], fuel, Obj(n), v) {
      LoneValid(vocabulary, n, key, v, fuel);
    }
  }

  // The schema without keywords.
  lemma EmptyAccepts(vocabulary: Vocabulary, v: Json)
    ensures LoneAccepts(vocabulary, [], v, 0)
  {
    hide InstanceEq, Valid;
    assert forall key :: Get([], key) == Null;
    assert Properties([]) == Obj([]) && Additional([]) == Bool(true);
  }

  const STRING_TYPE := [Field("type", Str("string"))]

  /** {} to {"type": "string"}: a first type is not reported. */
  lemma FirstTypeNarrows(vocabulary: Vocabulary)
    ensures SilentlyNarrowed(vocabulary, Obj([]), Obj(STRING_TYPE), Null)
  {
    hide Compatible, Valid, PropertiesValid, ItemsValid, OneOfValid, EnumAdmits;
    assert Get(STRING_TYPE, "type") == Str("string");
    assert TypeKept([], STRING_TYPE);
    LoneCompatible([], STRING_TYPE, "type");
    EmptyAccepts(vocabulary, Null);
    Narrowed(vocabulary, [], STRING_TYPE, "type", Null);
  }

  /** {} to {"items": false}: a first `items` is not reported. */
  lemma FirstItemsNarrows(vocabulary: Vocabulary)
    ensures SilentlyNarrowed(vocabulary, Obj([]), Obj(NO_ITEMS), Arr([Null]))
  {
    hide Compatible, PropertiesValid, OneOfValid, EnumAdmits, TypeAdmits;
    var v := Arr([Null]);
    assert Find(NO_ITEMS, "items") == Some(Bool(false));
    assert ItemsCompatible([], NO_ITEMS);
    LoneCompatible([], NO_ITEMS, "items");
    EmptyAccepts(vocabulary, v);
    forall fuel: nat ensures !LoneAccepts(vocabulary, NO_ITEMS, v, fuel) {
      assert !Valid(vocabulary, [], fuel, Bool(false), v.items[0]);
      assert !ItemsValid(vocabulary, [], fuel, NO_ITEMS, v);
    }
    Narrowed(vocabulary, [], NO_ITEMS, "items", v);
  }

  const NO_A := [Field("a", Bool(false))]
  const NO_PROPERTY_A := [Field("properties", Obj(NO_A))]

  /** {} to {"properties": {"a": false}}: a new property is not reported. */
  lemma NewPropertyNarrows(vocabulary: Vocabulary)
    ensures SilentlyNarrowed(vocabulary, Obj([]), Obj(NO_PROPERTY_A), Obj([Field("a", Null)]))
  {
    hide Compatible, ItemsValid, OneOfValid, EnumAdmits, TypeAdmits;
    var v := Obj([Field("a", Null)]);
    PropertyASilent();
    EmptyAccepts(vocabulary, v);
    forall fuel: nat ensures !LoneAccepts(vocabulary, NO_PROPERTY_A, v, fuel) {
      PropertyARefused(vocabulary, fuel);
      assert !PropertyValid(vocabulary, [], fuel, NO_PROPERTY_A, v.fields[0]);
    }
    Narrowed(vocabulary, [], NO_PROPERTY_A, "properties", v);
  }

  lemma PropertyASilent()
    ensures Compatible(Obj([]), Obj(NO_PROPERTY_A))
  {
    hide Compatible;
    assert Properties([]) == Obj([]);
    assert PropertiesCompatible([], NO_PROPERTY_A);
    LoneCompatible([], NO_PROPERTY_A, "properties");
  }

  lemma PropertyARefused(vocabulary: Vocabulary, fuel: nat)
    ensures !PropertyValid(vocabulary, [], fuel, NO_PROPERTY_A, Field("a", Null))
  {
    assert Properties(NO_PROPERTY_A) == Obj(NO_A);
    assert Find(NO_A, "a") == Some(Bool(false));
  }

  const CONST_TRUE := [Field("const", Bool(true))]
  const CONST_ONE := [Field("const", Num(1.0, "1"))]

  /** {"const": true} to {"const": 1}: equal in Python, different instances. */
  lemma BooleanConstNarrows(vocabulary: Vocabulary)
    ensures SilentlyNarrowed(vocabulary, Obj(CONST_TRUE), Obj(CONST_ONE), Bool(true))
  {
    hide Compatible, Valid;
    assert Get(CONST_TRUE, "const") == Bool(true) && Get(CONST_ONE, "const") == Num(1.0, "1");
    ConstAccepts(vocabulary, CONST_TRUE, Bool(true), 0);
    forall fuel: nat ensures !LoneAccepts(vocabulary, CONST_ONE, Bool(true), fuel) {
      ConstAccepts(vocabulary, CONST_ONE, Bool(true), fuel);
    }
    hide LoneAccepts;
    LoneCompatible(CONST_TRUE, CONST_ONE, "const");
    Narrowed(vocabulary, CONST_TRUE, CONST_ONE, "const", Bool(true));
  }

  lemma ConstAccepts(vocabulary: Vocabulary, s: seq<Field>, v: Json, fuel: nat)
    requires Lone(s, "const") && Has(s, "const") && !v.Obj? && !v.Arr?
    ensures LoneAccepts(vocabulary, s, v, fuel) <==> InstanceEq(Get(s, "const"), v)
  {
    hide InstanceEq, Valid, Accepting;
    LoneAbsent(s, s, "const", "type");
    LoneAbsent(s, s, "const", "enum");
    LoneAbsent(s, s, "const", "oneOf");
  }

  const ENUM_TRUE := [Field("enum", Arr([Bool(true)]))]
  const ENUM_ONE := [Field("enum", Arr([Num(1.0, "1")]))]

  /** {"enum": [true]} to {"enum": [1]}: the same confusion inside an enum. */
  lemma BooleanEnumNarrows(vocabulary: Vocabulary)
    ensures SilentlyNarrowed(vocabulary, Obj(ENUM_TRUE), Obj(ENUM_ONE), Bool(true))
  {
    hide Compatible, Valid;
    var x, y, v := [Bool(true)], [Num(1.0, "1")], Bool(true);
    assert Get(ENUM_TRUE, "enum") == Arr(x) && Get(ENUM_ONE, "enum") == Arr(y);
    assert PyEq(x[0], y[0]) && InstanceEq(x[0], v) && !InstanceEq(y[0], v);
    EnumAccepts(vocabulary, ENUM_TRUE, v, 0);
    forall fuel: nat ensures !LoneAccepts(vocabulary, ENUM_ONE, v, fuel) {
      EnumAccepts(vocabulary, ENUM_ONE, v, fuel);
      assert !EnumAdmits(ENUM_ONE, v);
    }
    hide LoneAccepts, InstanceEq;
    LoneCompatible(ENUM_TRUE, ENUM_ONE, "enum");
    Narrowed(vocabulary, ENUM_TRUE, ENUM_ONE, "enum", v);
  }

  lemma EnumAccepts(vocabulary: Vocabulary, s: seq<Field>, v: Json, fuel: nat)
    requires Lone(s, "enum") && !v.Obj? && !v.Arr?
    ensures LoneAccepts(vocabulary, s, v, fuel) <==> EnumAdmits(s, v)
  {
    hide InstanceEq, Valid, Accepting, EnumAdmits;
    LoneAbsent(s, s, "enum", "type");
    LoneAbsent(s, s, "enum", "const");
    LoneAbsent(s, s, "enum", "oneOf");
  }

  const ONE_WAY := Arr([Bool(true)])
  const TWO_WAYS := Arr([Bool(true), Bool(true)])
  const ONE_OF := [Field("oneOf", ONE_WAY)]
  const ONE_OF_TWO := [Field("oneOf", TWO_WAYS)]

  /** {"oneOf": [true]} to {"oneOf": [true, true]}: another alternative makes a unique match ambiguous. */
  lemma SecondAlternativeNarrows(vocabulary: Vocabulary)
    ensures SilentlyNarrowed(vocabulary, Obj(ONE_OF), Obj(ONE_OF_TWO), Null)
  {
    hide Compatible, Valid, Accepting;
    SecondAlternativeSilent();
    assert Get(ONE_OF, "oneOf") == ONE_WAY && Get(ONE_OF_TWO, "oneOf") == TWO_WAYS;
    OneOfAccepts(vocabulary, ONE_OF, Null, 0);
    WaysAccept(vocabulary, 0);
    forall fuel: nat ensures !LoneAccepts(vocabulary, ONE_OF_TWO, Null, fuel) {
      OneOfAccepts(vocabulary, ONE_OF_TWO, Null, fuel);
      WaysAccept(vocabulary, fuel);
    }
    hide LoneAccepts, ONE_WAY, TWO_WAYS;
    Narrowed(vocabulary, ONE_OF, ONE_OF_TWO, "oneOf", Null);
  }

  lemma WaysAccept(vocabulary: Vocabulary, fuel: nat)
    ensures Accepting(vocabulary, [], fuel, ONE_WAY, |ONE_WAY.items|, Null) == 1
    ensures Accepting(vocabulary, [], fuel, TWO_WAYS, |TWO_WAYS.items|, Null) == 2
  {
    assert Accepting(vocabulary, [], fuel, ONE_WAY, 1, Null) == 1 + Accepting(vocabulary, [], fuel, ONE_WAY, 0, Null);
    assert Accepting(vocabulary, [], fuel, TWO_WAYS, 2, Null) == 1 + Accepting(vocabulary, [], fuel, TWO_WAYS, 1, Null);
    assert Accepting(vocabulary, [], fuel, TWO_WAYS, 1, Null) == 1 + Accepting(vocabulary, [], fuel, TWO_WAYS, 0, Null);
  }

  lemma OneOfAccepts(vocabulary: Vocabulary, s: seq<Field>, v: Json, fuel: nat)
    requires Lone(s, "oneOf") && !v.Obj? && !v.Arr?
    ensures LoneAccepts(vocabulary, s, v, fuel) <==> OneOfValid(vocabulary, [], fuel, s, v)
  {
    hide InstanceEq, Valid, OneOfValid;
    LoneAbsent(s, s, "oneOf", "type");
    LoneAbsent(s, s, "oneOf", "const");
    LoneAbsent(s, s, "oneOf", "enum");
  }

  lemma SecondAlternativeSilent()
    ensures Compatible(Obj(ONE_OF), Obj(ONE_OF_TWO))
  {
    assert Compatible(Bool(true), Bool(true));
    hide Compatible;
    assert Get(ONE_OF, "oneOf") == ONE_WAY && Get(ONE_OF_TWO, "oneOf") == TWO_WAYS;
    var oldIds, newIds := Identities(ONE_WAY.items), Identities(TWO_WAYS.items);
    KthUnique(newIds, 0);
    assert newIds[..0] == [] && oldIds[..0] == [];
    assert Partner(oldIds, 0, newIds) == Some(0);
    assert AlternativeCompatible(ONE_WAY, 0, TWO_WAYS.items);
    assert AlternativesCompatible(ONE_OF, ONE_OF_TWO, "oneOf");
    hide Partner, Identities, AlternativesCompatible, Find;
    LoneCompatible(ONE_OF, ONE_OF_TWO, "oneOf");
  }
}
