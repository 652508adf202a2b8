/**
 * What a JSON value has to satisfy under a schema (JSON Schema 2020-12), for the keywords the
 * comparer looks at, and the theorem that a silent comparison never narrows acceptance.
 */
module SchemaSemantics {
  import opened Wrappers
  import opened Json
  import opened AlternativeMatching
  import opened SchemaContract

  // The parts of the semantics that are fixed elsewhere: formats, regular expressions, and
  // references that do not point into components.schemas.
  datatype Vocabulary = Vocabulary(
    format: (Json, Json) -> bool,
    pattern: (string, string) -> bool,
    external: (string, Json) -> bool)

  const SCHEMAS := "#/components/schemas/"

  predicate HasType(v: Json, t: string) {
    match v
    case Null => t == "null"
    case Bool(_) => t == "boolean"
    case Num(x, _) => t == "number" || (t == "integer" && x.Floor as real == x)
    case Str(_) => t == "string"
    case Arr(_) => t == "array"
    case Obj(_) => t == "object"
  }

  predicate TypeAdmits(t: Json, v: Json) {
    match t
    case Str(s) => HasType(v, s)
    case Arr(ts) => exists i :: 0 <= i < |ts| && ts[i].Str? && HasType(v, ts[i].s)
    case _ => true
  }

  predicate AtMost(limit: Json, x: real) { limit.Num? ==> x <= limit.value }

  predicate AtLeast(limit: Json, x: real) { limit.Num? ==> limit.value <= x }

  // The limits on numbers, and on the lengths of strings, arrays and objects (JSON Schema Validation,
  // sections 6.2 to 6.5).
  predicate LimitsAdmit(schema: seq<Field>, v: Json) {
    match v
    case Num(x, _) =>
      && AtMost(Get(schema, "maximum"), x) && AtLeast(Get(schema, "minimum"), x)
      && (Get(schema, "exclusiveMaximum").Num? ==> x < Get(schema, "exclusiveMaximum").value)
      && (Get(schema, "exclusiveMinimum").Num? ==> x > Get(schema, "exclusiveMinimum").value)
    case Str(s) => AtMost(Get(schema, "maxLength"), |s| as real) && AtLeast(Get(schema, "minLength"), |s| as real)
    case Arr(items) => AtMost(Get(schema, "maxItems"), |items| as real) && AtLeast(Get(schema, "minItems"), |items| as real)
    case Obj(fields) =>
      AtMost(Get(schema, "maxProperties"), |fields| as real) && AtLeast(Get(schema, "minProperties"), |fields| as real)
    case _ => true
  }

  predicate EnumAdmits(schema: seq<Field>, v: Json) {
    var e := Get(schema, "enum");
    e.Arr? ==> exists i :: 0 <= i < |e.items| && InstanceEq(e.items[i], v)
  }

  predicate RequiredAdmits(schema: seq<Field>, v: Json) {
    var required := Get(schema, "required");
    required.Arr? && v.Obj? ==>
      forall i :: 0 <= i < |required.items| && required.items[i].Str? ==> Has(v.fields, required.items[i].s)
  }

  // Keywords without subschemas.
  predicate KeywordsAdmit(vocabulary: Vocabulary, schema: seq<Field>, v: Json) {
    && TypeAdmits(Get(schema, "type"), v)
    && (Has(schema, "format") ==> vocabulary.format(Get(schema, "format"), v))
    && (Has(schema, "const") ==> InstanceEq(Get(schema, "const"), v))
    && EnumAdmits(schema, v)
    && LimitsAdmit(schema, v)
    && (Get(schema, "pattern").Str? && v.Str? ==> vocabulary.pattern(Get(schema, "pattern").s, v.s))
    && RequiredAdmits(schema, v)
  }

  // How many of the first n alternatives accept v.
  ghost function Accepting(vocabulary: Vocabulary, env: seq<Field>, fuel: nat, alternatives: Json, n: nat, v: Json): nat
    requires alternatives.Arr? && n <= |alternatives.items|
    decreases fuel, alternatives, 2, n
  {
    if n == 0 then 0
    else
      Accepting(vocabulary, env, fuel, alternatives, n - 1, v)
      + if Valid(vocabulary, env, fuel, alternatives.items[n - 1], v) then 1 else 0
  }

  // v is valid under schema when references are followed at most `fuel` times.
  ghost predicate Valid(vocabulary: Vocabulary, env: seq<Field>, fuel: nat, schema: Json, v: Json)
    decreases fuel, schema, 2
  {
    match schema
    case Bool(b) => b
    case Obj(s) =>
      && ReferenceValid(vocabulary, env, fuel, s, v)
      && KeywordsAdmit(vocabulary, s, v)
      && PropertiesValid(vocabulary, env, fuel, s, v)
      && ItemsValid(vocabulary, env, fuel, s, v)
      && AnyOfValid(vocabulary, env, fuel, s, v)
      && OneOfValid(vocabulary, env, fuel, s, v)
    case _ => false
  }

  // A reference to a schema that is not there accepts nothing.
  ghost predicate ReferenceValid(vocabulary: Vocabulary, env: seq<Field>, fuel: nat, s: seq<Field>, v: Json)
    decreases fuel, Obj(s), 1
  {
    var reference := Get(s, "$ref");
    reference.Str? ==>
      if SCHEMAS <= reference.s then
        Has(env, reference.s[|SCHEMAS|..])
        && fuel > 0 && Valid(vocabulary, env, fuel - 1, Find(env, reference.s[|SCHEMAS|..]).value, v)
      else vocabulary.external(reference.s, v)
  }

  // `properties` and `additionalProperties` (Core, sections 10.3.2.1 and 10.3.2.3).
  ghost predicate PropertiesValid(vocabulary: Vocabulary, env: seq<Field>, fuel: nat, s: seq<Field>, v: Json)
    decreases fuel, Obj(s), 1
  {
    v.Obj? ==> forall i :: 0 <= i < |v.fields| ==> PropertyValid(vocabulary, env, fuel, s, v.fields[i])
  }

  ghost predicate PropertyValid(vocabulary: Vocabulary, env: seq<Field>, fuel: nat, s: seq<Field>, f: Field)
    decreases fuel, Obj(s), 0
  {
    var props := Get(s, "properties");
    if props.Obj? && Has(props.fields, f.name) then
      Valid(vocabulary, env, fuel, Find(props.fields, f.name).value, f.value)
    else
      Has(s, "additionalProperties") ==> Valid(vocabulary, env, fuel, Find(s, "additionalProperties").value, f.value)
  }

  ghost predicate ItemsValid(vocabulary: Vocabulary, env: seq<Field>, fuel: nat, s: seq<Field>, v: Json)
    decreases fuel, Obj(s), 1
  {
    Has(s, "items") && v.Arr? ==>
      forall i :: 0 <= i < |v.items| ==> Valid(vocabulary, env, fuel, Find(s, "items").value, v.items[i])
  }

  ghost predicate AnyOfValid(vocabulary: Vocabulary, env: seq<Field>, fuel: nat, s: seq<Field>, v: Json)
    decreases fuel, Obj(s), 1
  {
    var alternatives := Get(s, "anyOf");
    alternatives.Arr? ==>
      exists i :: 0 <= i < |alternatives.items| && Valid(vocabulary, env, fuel, alternatives.items[i], v)
  }

  ghost predicate OneOfValid(vocabulary: Vocabulary, env: seq<Field>, fuel: nat, s: seq<Field>, v: Json)
    decreases fuel, Obj(s), 1
  {
    var alternatives := Get(s, "oneOf");
    alternatives.Arr? ==> Accepting(vocabulary, env, fuel, alternatives, |alternatives.items|, v) == 1
  }

  // v is accepted: valid after finitely many references.
  ghost predicate Accepts(vocabulary: Vocabulary, env: seq<Field>, schema: Json, v: Json) {
    exists fuel: nat :: Valid(vocabulary, env, fuel, schema, v)
  }

  // ---------- well-typed schemas ----------

  // Keywords hold what JSON Schema lets them hold.
  ghost predicate WellTyped(s: Json)
    decreases s, 1
  {
    match s
    case Bool(_) => true
    case Obj(o) =>
      && TypedKeys(o)
      && (Properties(o).Obj? && Properties(o) != Obj([]) ==>
          forall i :: 0 <= i < |Properties(o).fields| ==> WellTyped(Properties(o).fields[i].value))
      && (Has(o, "items") ==> WellTyped(Find(o, "items").value))
      && (Get(o, "anyOf").Arr? ==>
          forall i :: 0 <= i < |Get(o, "anyOf").items| ==> WellTyped(Get(o, "anyOf").items[i]))
      && (Additional(o).Obj? ==> WellTyped(Additional(o)))
    case _ => false
  }

  predicate IsLimit(key: string) {
    key in {"maximum", "exclusiveMaximum", "maxLength", "maxItems", "maxProperties",
            "minimum", "exclusiveMinimum", "minLength", "minItems", "minProperties"}
  }

  ghost predicate TypedLimits(o: seq<Field>) { forall key :: IsLimit(key) ==> Get(o, key) == Null || Get(o, key).Num? }

  ghost predicate TypedKeys(o: seq<Field>) {
    && (Get(o, "$ref") == Null || Get(o, "$ref").Str?)
    && (Get(o, "type") == Null || Get(o, "type").Str? || IsStringList(Get(o, "type")))
    && (Has(o, "format") ==> Get(o, "format").Str?)
    && (Get(o, "enum") == Null || Get(o, "enum").Arr?)
    && TypedLimits(o)
    && (Get(o, "pattern") == Null || Get(o, "pattern").Str?)
    && ArrayOrAbsent(o, "required")
    && ObjectOrAbsent(o, "properties")
    && (Additional(o).Bool? || Additional(o).Obj?)
  }

  predicate IsStringList(t: Json) { t.Arr? && forall i :: 0 <= i < |t.items| ==> t.items[i].Str? }

  // ---------- what the comparer does not look at ----------

  // Restrictions that the comparer lets through, excluded wherever it compares two schemas:
  // a first `type`, a first `items`, a new property that the old schema did not forbid,
  // any oneOf, and literals that only Python calls equal.
  ghost predicate Additive(previous: Json, current: Json)
    decreases previous, 1
  {
    previous.Obj? && current.Obj? ==>
      && KeywordsAdditive(previous.fields, current.fields)
      && NamesAdditive(previous.fields, current.fields)
      && PropertiesAdditive(previous.fields, current.fields)
      && ItemsAdditive(previous.fields, current.fields)
      && AlternativesAdditive(previous.fields, current.fields)
      && (Additional(previous.fields).Obj? && Additional(current.fields).Obj? ==>
          Additive(Additional(previous.fields), Additional(current.fields)))
  }

  ghost predicate KeywordsAdditive(o: seq<Field>, n: seq<Field>) {
    && (Get(o, "type") == Null ==> Get(n, "type") == Null)
    && (Has(n, "items") ==> Has(o, "items"))
    && Get(o, "oneOf") == Null
    && (Has(o, "const") && Has(n, "const") ==> InstanceEq(Get(n, "const"), Get(o, "const")))
    && (Get(o, "enum").Arr? && Get(n, "enum").Arr? ==>
        forall i :: 0 <= i < |Get(o, "enum").items| ==> InstanceIn(Get(o, "enum").items[i], Get(n, "enum").items))
  }

  predicate InstanceIn(x: Json, xs: seq<Json>) { exists i :: 0 <= i < |xs| && InstanceEq(xs[i], x) }

  ghost predicate NamesAdditive(o: seq<Field>, n: seq<Field>) {
    Properties(o).Obj? && Properties(n).Obj? && Additional(o) != Bool(false) ==>
      forall i :: 0 <= i < |Properties(n).fields| ==> Has(Properties(o).fields, Properties(n).fields[i].name)
  }

  ghost predicate PropertiesAdditive(o: seq<Field>, n: seq<Field>)
    decreases Obj(o), 0
  {
    var x, y := Properties(o), Properties(n);
    x.Obj? && y.Obj? && x != Obj([]) ==>
      forall i :: 0 <= i < |x.fields| && Has(y.fields, x.fields[i].name) ==>
        Additive(x.fields[i].value, Find(y.fields, x.fields[i].name).value)
  }

  ghost predicate ItemsAdditive(o: seq<Field>, n: seq<Field>)
    decreases Obj(o), 0
  {
    Has(o, "items") && Has(n, "items") ==> Additive(Find(o, "items").value, Find(n, "items").value)
  }

  ghost predicate AlternativesAdditive(o: seq<Field>, n: seq<Field>)
    decreases Obj(o), 0
  {
    var x, y := Get(o, "anyOf"), Get(n, "anyOf");
    x.Arr? && y.Arr? ==> forall i :: 0 <= i < |x.items| ==> AlternativeAdditive(x, i, y.items)
  }

  ghost predicate AlternativeAdditive(x: Json, i: nat, y: seq<Json>)
    requires x.Arr? && i < |x.items|
    decreases x, 1
  {
    var p := Partner(Identities(x.items), i, Identities(y));
    p.Some? ==> Additive(x.items[i], y[p.value])
  }

  ghost predicate SchemaAdditive(previous: Json, current: Json) {
    WellTyped(previous) && WellTyped(current) && Compatible(previous, current) && Additive(previous, current)
  }

  // Every named schema of the old document is still there, compared silently and additively.
  ghost predicate SchemasAdditive(oldEnv: seq<Field>, newEnv: seq<Field>) {
    forall name :: Has(oldEnv, name) ==>
      Has(newEnv, name) && SchemaAdditive(Find(oldEnv, name).value, Find(newEnv, name).value)
  }

  // ---------- keywords ----------

  lemma {:induction false} PyEqStrings(t: Json, u: Json)
    requires PyEq(t, u) && (t.Str? || IsStringList(t))
    ensures t == u
  {
    if t.Arr? {
      forall i | 0 <= i < |t.items| ensures t.items[i] == u.items[i] {
        assert Same(t.items[i], u.items[i], Python);
      }
    }
  }

  lemma TypeWidens(o: seq<Field>, n: seq<Field>, v: Json)
    requires TypedKeys(o) && TypedKeys(n) && TypeKept(o, n) && KeywordsAdditive(o, n)
    requires TypeAdmits(Get(o, "type"), v)
    ensures TypeAdmits(Get(n, "type"), v)
  {
    if Get(o, "type") != Null {
      PyEqStrings(Get(o, "type"), Get(n, "type"));
    }
  }

  lemma EnumWidens(o: seq<Field>, n: seq<Field>, v: Json)
    requires TypedKeys(o) && TypedKeys(n) && EnumKept(o, n) && KeywordsAdditive(o, n)
    requires EnumAdmits(o, v)
    ensures EnumAdmits(n, v)
  {
    hide Find, Get, Same, TypedLimits;
    var x, y := Get(o, "enum"), Get(n, "enum");
    if x.Arr? && y.Arr? {
      var i :| 0 <= i < |x.items| && InstanceEq(x.items[i], v);
      assert InstanceIn(x.items[i], y.items);
      var j :| 0 <= j < |y.items| && InstanceEq(y.items[j], x.items[i]);
      SameTransitive(y.items[j], x.items[i], v, Schema);
    }
  }

  lemma ConstWidens(o: seq<Field>, n: seq<Field>, v: Json)
    requires KeyKept(o, n, "const") && (Has(o, "const") ==> InstanceEq(Get(o, "const"), v))
    requires Has(o, "const") && Has(n, "const") ==> InstanceEq(Get(n, "const"), Get(o, "const"))
    ensures Has(n, "const") ==> InstanceEq(Get(n, "const"), v)
  {
    hide Find, Get;
    if Has(n, "const") {
      SameTransitive(Get(n, "const"), Get(o, "const"), v, Schema);
    }
  }

  lemma FormatWidens(vocabulary: Vocabulary, o: seq<Field>, n: seq<Field>, v: Json)
    requires KeyKept(o, n, "format") && (Has(o, "format") ==> vocabulary.format(Get(o, "format"), v))
    requires Has(o, "format") ==> Get(o, "format").Str?
    ensures Has(n, "format") ==> vocabulary.format(Get(n, "format"), v)
  {
    hide Find, Get, Same;
    if Has(o, "format") {
      PyEqStrings(Get(o, "format"), Get(n, "format"));
    }
  }

  lemma PatternWidens(vocabulary: Vocabulary, o: seq<Field>, n: seq<Field>, v: Json)
    requires PatternKept(o, n) && (Get(o, "pattern") == Null || Get(o, "pattern").Str?)
    requires Get(o, "pattern").Str? && v.Str? ==> vocabulary.pattern(Get(o, "pattern").s, v.s)
    ensures Get(n, "pattern").Str? && v.Str? ==> vocabulary.pattern(Get(n, "pattern").s, v.s)
  {
    hide Find, Get;
    if Get(o, "pattern") != Null {
      PyEqStrings(Get(o, "pattern"), Get(n, "pattern"));
    }
  }

  // A limit that is kept admits what it admitted.
  lemma LimitWidens(o: seq<Field>, n: seq<Field>, key: string, x: real)
    requires TypedLimits(o) && IsLimit(key)
    ensures UpperKept(o, n, key) && AtMost(Get(o, key), x) ==> AtMost(Get(n, key), x)
    ensures LowerKept(o, n, key) && AtLeast(Get(o, key), x) ==> AtLeast(Get(n, key), x)
    ensures UpperKept(o, n, key) && (Get(o, key).Num? ==> x < Get(o, key).value) ==> Get(n, key).Num? ==> x < Get(n, key).value
    ensures LowerKept(o, n, key) && (Get(o, key).Num? ==> x > Get(o, key).value) ==> Get(n, key).Num? ==> x > Get(n, key).value
  {
    hide Find, Get, IsLimit;
    assert Get(o, key) == Null || Get(o, key).Num?;
  }

  lemma ComparedLimits(o: seq<Field>, n: seq<Field>)
    requires KeywordsKept(o, n)
    ensures UpperKept(o, n, "maximum") && UpperKept(o, n, "exclusiveMaximum") && UpperKept(o, n, "maxLength")
    ensures UpperKept(o, n, "maxItems") && UpperKept(o, n, "maxProperties")
    ensures LowerKept(o, n, "minimum") && LowerKept(o, n, "exclusiveMinimum") && LowerKept(o, n, "minLength")
    ensures LowerKept(o, n, "minItems") && LowerKept(o, n, "minProperties")
  {
    hide UpperKept, LowerKept, TypeKept, KeyKept, EnumKept, PatternKept, RequiredKept;
    assert |UPPER_LIMITS| == 5 && |LOWER_LIMITS| == 5;
    assert UPPER_LIMITS[0] == "maximum" && UPPER_LIMITS[1] == "exclusiveMaximum" && UPPER_LIMITS[2] == "maxLength"
           && UPPER_LIMITS[3] == "maxItems" && UPPER_LIMITS[4] == "maxProperties";
    assert LOWER_LIMITS[0] == "minimum" && LOWER_LIMITS[1] == "exclusiveMinimum" && LOWER_LIMITS[2] == "minLength"
           && LOWER_LIMITS[3] == "minItems" && LOWER_LIMITS[4] == "minProperties";
  }

  lemma LimitsWiden(o: seq<Field>, n: seq<Field>, v: Json)
    requires KeywordsKept(o, n) && TypedLimits(o) && LimitsAdmit(o, v)
    ensures LimitsAdmit(n, v)
  {
    ComparedLimits(o, n);
    hide Find, Get, KeywordsKept, UpperKept, LowerKept, AtMost, AtLeast, TypedLimits;
    match v {
      case Num(x, _) =>
        LimitWidens(o, n, "maximum", x);
        LimitWidens(o, n, "minimum", x);
        LimitWidens(o, n, "exclusiveMaximum", x);
        LimitWidens(o, n, "exclusiveMinimum", x);
      case Str(s) =>
        LimitWidens(o, n, "maxLength", |s| as real);
        LimitWidens(o, n, "minLength", |s| as real);
      case Arr(items) =>
        LimitWidens(o, n, "maxItems", |items| as real);
        LimitWidens(o, n, "minItems", |items| as real);
      case Obj(fields) =>
        LimitWidens(o, n, "maxProperties", |fields| as real);
        LimitWidens(o, n, "minProperties", |fields| as real);
      case _ =>
    }
  }

  lemma RequiredWidens(o: seq<Field>, n: seq<Field>, v: Json)
    requires RequiredKept(o, n) && ArrayOrAbsent(o, "required") && ArrayOrAbsent(n, "required") && RequiredAdmits(o, v)
    ensures RequiredAdmits(n, v)
  {
    hide Find;
    var x, y := Get(o, "required"), Get(n, "required");
    if y.Arr? && v.Obj? {
      forall i | 0 <= i < |y.items| && y.items[i].Str? ensures Has(v.fields, y.items[i].s) {
        assert y.items[i].s in RequiredNames(n) && y.items[i].s in RequiredNames(o);
      }
    }
  }

  /** No keyword without subschemas narrows. */
  lemma KeywordsWiden(vocabulary: Vocabulary, o: seq<Field>, n: seq<Field>, v: Json)
    requires TypedKeys(o) && TypedKeys(n) && KeywordsKept(o, n) && KeywordsAdditive(o, n)
    requires KeywordsAdmit(vocabulary, o, v)
    ensures KeywordsAdmit(vocabulary, n, v)
  {
    hide Find, Get, KeyKept, PatternKept, TypeKept, EnumKept, UpperKept, LowerKept, RequiredKept, InstanceEq,
      TypeAdmits, EnumAdmits, LimitsAdmit, RequiredAdmits, TypedLimits, UPPER_LIMITS, LOWER_LIMITS, ArrayOrAbsent, ObjectOrAbsent;
    TypeWidens(o, n, v);
    EnumWidens(o, n, v);
    ConstWidens(o, n, v);
    FormatWidens(vocabulary, o, n, v);
    PatternWidens(vocabulary, o, n, v);
    LimitsWiden(o, n, v);
    RequiredWidens(o, n, v);
  }

  // ---------- the theorem ----------

  /** A silent, additive comparison: every value valid under the old schema is valid under the new one. */
  lemma {:induction false} ValidityWidens(vocabulary: Vocabulary, oldEnv: seq<Field>, newEnv: seq<Field>, fuel: nat,
                                          previous: Json, current: Json, v: Json)
    requires SchemasAdditive(oldEnv, newEnv) && SchemaAdditive(previous, current)
    requires Valid(vocabulary, oldEnv, fuel, previous, v)
    ensures Valid(vocabulary, newEnv, fuel, current, v)
    decreases fuel, previous, 2
  {
    hide KeywordsAdmit, KeywordsKept, KeywordsAdditive, TypedKeys, ReferenceValid, PropertiesValid, ItemsValid, AnyOfValid,
      OneOfValid, PropertiesCompatible, ItemsCompatible, AlternativesCompatible, AdditionalCompatible, ReferenceKept,
      NamesAdditive, PropertiesAdditive, ItemsAdditive, AlternativesAdditive, SchemasAdditive;
    if previous.Obj? && current.Obj? {
      var o, n := previous.fields, current.fields;
      KeywordsWiden(vocabulary, o, n, v);
      ReferenceWidens(vocabulary, oldEnv, newEnv, fuel, o, n, v);
      PropertiesWiden(vocabulary, oldEnv, newEnv, fuel, o, n, v);
      ItemsWiden(vocabulary, oldEnv, newEnv, fuel, o, n, v);
      AnyOfWidens(vocabulary, oldEnv, newEnv, fuel, o, n, v);
      OneOfAbsent(vocabulary, newEnv, fuel, o, n, v);
    }
  }

  lemma OneOfAbsent(vocabulary: Vocabulary, env: seq<Field>, fuel: nat, o: seq<Field>, n: seq<Field>, v: Json)
    requires KeywordsAdditive(o, n) && AlternativesCompatible(o, n, "oneOf")
    ensures OneOfValid(vocabulary, env, fuel, n, v)
  {
    hide Valid, Accepting;
  }

  lemma {:induction false} ReferenceWidens(vocabulary: Vocabulary, oldEnv: seq<Field>, newEnv: seq<Field>, fuel: nat,
                                           o: seq<Field>, n: seq<Field>, v: Json)
    requires SchemasAdditive(oldEnv, newEnv) && TypedKeys(o) && ReferenceKept(o, n)
    requires ReferenceValid(vocabulary, oldEnv, fuel, o, v)
    ensures ReferenceValid(vocabulary, newEnv, fuel, n, v)
    decreases fuel, Obj(o), 1
  {
    hide Valid, SchemaAdditive, SCHEMAS, Find, TypedLimits;
    var reference := Get(o, "$ref");
    if reference.Str? {
      PyEqStrings(reference, Get(n, "$ref"));
      if SCHEMAS <= reference.s {
        var name := reference.s[|SCHEMAS|..];
        ValidityWidens(vocabulary, oldEnv, newEnv, fuel - 1, Find(oldEnv, name).value, Find(newEnv, name).value, v);
      }
    }
  }

  lemma {:induction false} ItemsWiden(vocabulary: Vocabulary, oldEnv: seq<Field>, newEnv: seq<Field>, fuel: nat,
                                      o: seq<Field>, n: seq<Field>, v: Json)
    requires SchemasAdditive(oldEnv, newEnv) && KeywordsAdditive(o, n)
    requires ItemsCompatible(o, n) && ItemsAdditive(o, n)
    requires Has(o, "items") ==> WellTyped(Find(o, "items").value)
    requires Has(n, "items") ==> WellTyped(Find(n, "items").value)
    requires ItemsValid(vocabulary, oldEnv, fuel, o, v)
    ensures ItemsValid(vocabulary, newEnv, fuel, n, v)
    decreases fuel, Obj(o), 1
  {
    hide Valid, Compatible, WellTyped, Additive, SchemasAdditive;
    if Has(n, "items") && v.Arr? {
      forall i | 0 <= i < |v.items| ensures Valid(vocabulary, newEnv, fuel, Find(n, "items").value, v.items[i]) {
        ValidityWidens(vocabulary, oldEnv, newEnv, fuel, Find(o, "items").value, Find(n, "items").value, v.items[i]);
      }
    }
  }

  lemma {:induction false} AnyOfWidens(vocabulary: Vocabulary, oldEnv: seq<Field>, newEnv: seq<Field>, fuel: nat,
                                       o: seq<Field>, n: seq<Field>, v: Json)
    requires SchemasAdditive(oldEnv, newEnv)
    requires AlternativesCompatible(o, n, "anyOf") && AlternativesAdditive(o, n)
    requires WellTyped(Obj(o)) && WellTyped(Obj(n))
    requires AnyOfValid(vocabulary, oldEnv, fuel, o, v)
    ensures AnyOfValid(vocabulary, newEnv, fuel, n, v)
    decreases fuel, Obj(o), 1
  {
    hide Valid, Compatible, Additive, SchemasAdditive, Partner, TypedKeys;
    var x, y := Get(o, "anyOf"), Get(n, "anyOf");
    if x.Arr? && y.Arr? {
      var i :| 0 <= i < |x.items| && Valid(vocabulary, oldEnv, fuel, x.items[i], v);
      assert AlternativeCompatible(x, i, y.items) && AlternativeAdditive(x, i, y.items);
      var p := Partner(Identities(x.items), i, Identities(y.items)).value;
      ValidityWidens(vocabulary, oldEnv, newEnv, fuel, x.items[i], y.items[p], v);
    }
  }

  lemma {:induction false} PropertiesWiden(vocabulary: Vocabulary, oldEnv: seq<Field>, newEnv: seq<Field>, fuel: nat,
                                           o: seq<Field>, n: seq<Field>, v: Json)
    requires SchemasAdditive(oldEnv, newEnv) && WellTyped(Obj(o)) && WellTyped(Obj(n))
    requires PropertiesCompatible(o, n) && AdditionalCompatible(o, n)
    requires NamesAdditive(o, n) && PropertiesAdditive(o, n)
    requires Additional(o).Obj? && Additional(n).Obj? ==> Additive(Additional(o), Additional(n))
    requires PropertiesValid(vocabulary, oldEnv, fuel, o, v)
    ensures PropertiesValid(vocabulary, newEnv, fuel, n, v)
    decreases fuel, Obj(o), 1
  {
    hide PropertyValid, WellTyped, SchemasAdditive, PropertiesCompatible, AdditionalCompatible, NamesAdditive,
      PropertiesAdditive, Additive;
    if v.Obj? {
      forall i | 0 <= i < |v.fields| ensures PropertyValid(vocabulary, newEnv, fuel, n, v.fields[i]) {
        PropertyWidens(vocabulary, oldEnv, newEnv, fuel, o, n, v.fields[i]);
      }
    }
  }

  lemma {:induction false} PropertyWidens(vocabulary: Vocabulary, oldEnv: seq<Field>, newEnv: seq<Field>, fuel: nat,
                                          o: seq<Field>, n: seq<Field>, f: Field)
    requires SchemasAdditive(oldEnv, newEnv) && WellTyped(Obj(o)) && WellTyped(Obj(n))
    requires PropertiesCompatible(o, n) && AdditionalCompatible(o, n)
    requires NamesAdditive(o, n) && PropertiesAdditive(o, n)
    requires Additional(o).Obj? && Additional(n).Obj? ==> Additive(Additional(o), Additional(n))
    requires PropertyValid(vocabulary, oldEnv, fuel, o, f)
    ensures PropertyValid(vocabulary, newEnv, fuel, n, f)
    decreases fuel, Obj(o), 0
  {
    var x, y := Properties(o), Properties(n);
    PropertyMeans(vocabulary, oldEnv, fuel, o, f);
    PropertyMeans(vocabulary, newEnv, fuel, n, f);
    hide Valid, PropertyValid, Compatible, Additive, SchemasAdditive, TypedKeys;
    if Has(x.fields, f.name) {
      var i :| 0 <= i < |x.fields| && x.fields[i] == Field(f.name, Find(x.fields, f.name).value);
      assert x != Obj([]);
      assert Find(y.fields, x.fields[i].name).Some?;
      var q := Find(y.fields, f.name).value;
      assert WellTyped(x.fields[i].value);
      PropertyWellTyped(n, f.name);
      ValidityWidens(vocabulary, oldEnv, newEnv, fuel, x.fields[i].value, q, f.value);
    } else {
      assert !Has(y.fields, f.name);
      if Additional(n).Obj? {
        ValidityWidens(vocabulary, oldEnv, newEnv, fuel, Additional(o), Additional(n), f.value);
      }
    }
  }

  // The comparer's reading of `properties` and `additionalProperties`, defaults included, is what they mean.
  lemma PropertyMeans(vocabulary: Vocabulary, env: seq<Field>, fuel: nat, s: seq<Field>, f: Field)
    requires WellTyped(Obj(s))
    ensures Properties(s).Obj?
    ensures PropertyValid(vocabulary, env, fuel, s, f) <==>
              if Has(Properties(s).fields, f.name) then Valid(vocabulary, env, fuel, Find(Properties(s).fields, f.name).value, f.value)
              else Additional(s) != Bool(false) && (Additional(s).Obj? ==> Valid(vocabulary, env, fuel, Additional(s), f.value))
  {
    assert TypedKeys(s);
    hide WellTyped, TypedLimits;
  }

  lemma PropertyWellTyped(o: seq<Field>, name: string)
    requires WellTyped(Obj(o)) && Properties(o).Obj? && Has(Properties(o).fields, name)
    ensures WellTyped(Find(Properties(o).fields, name).value)
  {
    var fields := Properties(o).fields;
    var i :| 0 <= i < |fields| && fields[i] == Field(name, Find(fields, name).value);
    assert WellTyped(fields[i].value);
  }

  /** Acceptance is never narrowed. */
  lemma AcceptanceWidens(vocabulary: Vocabulary, oldEnv: seq<Field>, newEnv: seq<Field>, previous: Json, current: Json, v: Json)
    requires SchemasAdditive(oldEnv, newEnv) && SchemaAdditive(previous, current)
    requires Accepts(vocabulary, oldEnv, previous, v)
    ensures Accepts(vocabulary, newEnv, current, v)
  {
    var fuel: nat :| Valid(vocabulary, oldEnv, fuel, previous, v);
    ValidityWidens(vocabulary, oldEnv, newEnv, fuel, previous, current, v);
  }
}
