/** "No findings" is a preorder on schemas. */
module SchemaOrder {
  import opened Wrappers
  import opened Json
  import opened AlternativeMatching
  import opened SchemaContract

  // ---------- an empty report is exactly compatibility ----------

  /** The report is empty exactly when the schemas are compatible, wherever they are. */
  lemma {:induction false} SilenceIsCompatibility(previous: Json, current: Json, location: string)
    ensures SchemaFindings(previous, current, location) == [] <==> Compatible(previous, current)
    decreases previous, 1, 0
  {
    hide KeywordFindings, PropertiesFindings, ItemsFindings, AlternativesFindings, AdditionalFindings, ReferenceKept, KeywordsKept,
      PropertiesCompatible, ItemsCompatible, AlternativesCompatible, AdditionalCompatible, PyEq, Find;
    if previous.Obj? && current.Obj? && ReferenceKept(previous.fields, current.fields) {
      var o, n := previous.fields, current.fields;
      KeywordSilence(o, n, location);
      PropertiesSilence(o, n, location);
      ItemsSilence(o, n, location);
      AlternativesSilence(o, n, "anyOf", location);
      AlternativesSilence(o, n, "oneOf", location);
      AdditionalSilence(o, n, location);
    }
  }

  lemma {:induction false} UpperSilence(o: seq<Field>, n: seq<Field>, keys: seq<string>, k: nat, location: string)
    requires k <= |keys|
    ensures UpperFindings(o, n, keys, k, location) == []
            <==> forall i :: k <= i < |keys| ==> UpperKept(o, n, keys[i])
    decreases |keys| - k
  {
    hide UpperKept, LimitFinding;
    if k < |keys| {
      UpperSilence(o, n, keys, k + 1, location);
    }
  }

  lemma {:induction false} LowerSilence(o: seq<Field>, n: seq<Field>, keys: seq<string>, k: nat, location: string)
    requires k <= |keys|
    ensures LowerFindings(o, n, keys, k, location) == []
            <==> forall i :: k <= i < |keys| ==> LowerKept(o, n, keys[i])
    decreases |keys| - k
  {
    hide LowerKept, LimitFinding;
    if k < |keys| {
      LowerSilence(o, n, keys, k + 1, location);
    }
  }

  lemma KeywordSilence(o: seq<Field>, n: seq<Field>, location: string)
    ensures KeywordFindings(o, n, location) == [] <==> KeywordsKept(o, n)
  {
    hide UpperKept, LowerKept, UpperFindings, LowerFindings, PyEq, Find, Get, RequiredKept, RequiredNames;
    UpperSilence(o, n, UPPER_LIMITS, 0, location);
    LowerSilence(o, n, LOWER_LIMITS, 0, location);
  }

  lemma {:induction false} PropertiesSilence(o: seq<Field>, n: seq<Field>, location: string)
    ensures PropertiesFindings(o, n, location) == [] <==> PropertiesCompatible(o, n)
    decreases Obj(o), 0, 0
  {
    var previous, current := Properties(o), Properties(n);
    if previous.Obj? && current.Obj? && previous != Obj([]) {
      PropertySilence(previous, 0, current.fields, location);
    }
  }

  lemma {:induction false} PropertySilence(props: Json, k: nat, others: seq<Field>, location: string)
    requires props.Obj? && k <= |props.fields|
    ensures PropertyFindings(props, k, others, location) == []
            <==> forall i :: k <= i < |props.fields| ==>
                   var p := Find(others, props.fields[i].name);
                   p.Some? && Compatible(props.fields[i].value, p.value)
    decreases props, 2, |props.fields| - k
  {
    hide PropertyFinding, Compatible, Find;
    if k < |props.fields| {
      OnePropertySilence(props.fields[k], others, location);
      PropertySilence(props, k + 1, others, location);
    }
  }

  lemma {:induction false} OnePropertySilence(f: Field, others: seq<Field>, location: string)
    ensures PropertyFinding(f, others, location) == []
            <==> Find(others, f.name).Some? && Compatible(f.value, Find(others, f.name).value)
    decreases f, 0, 0
  {
    hide SchemaFindings, Compatible, Find;
    var p := Find(others, f.name);
    if p.Some? {
      SilenceIsCompatibility(f.value, p.value, location + "." + f.name);
    }
  }

  lemma {:induction false} ItemsSilence(o: seq<Field>, n: seq<Field>, location: string)
    ensures ItemsFindings(o, n, location) == [] <==> ItemsCompatible(o, n)
    decreases Obj(o), 0, 0
  {
    if Has(o, "items") && Has(n, "items") {
      SilenceIsCompatibility(Find(o, "items").value, Find(n, "items").value, location + ".items");
    }
  }

  lemma {:induction false} AlternativesSilence(o: seq<Field>, n: seq<Field>, keyword: string, location: string)
    ensures AlternativesFindings(o, n, keyword, location) == [] <==> AlternativesCompatible(o, n, keyword)
    decreases Obj(o), 0, 0
  {
    hide SchemaFindings, AlternativeFinding, AllAlternativesCompatible;
    var previous, current := Get(o, keyword), Get(n, keyword);
    if previous.Arr? && current.Arr? {
      AlternativeSilence(previous, 0, current.items, keyword, location);
    }
  }

  lemma {:induction false} AlternativeSilence(previous: Json, k: nat, current: seq<Json>, keyword: string, location: string)
    requires previous.Arr? && k <= |previous.items|
    ensures AlternativeFindings(previous, k, current, keyword, location) == []
            <==> AllAlternativesCompatible(previous, k, current)
    decreases previous, 2, |previous.items| - k
  {
    hide AlternativeFinding, AlternativeCompatible;
    if k < |previous.items| {
      OneAlternativeSilence(previous, k, current, keyword, location);
      AlternativeSilence(previous, k + 1, current, keyword, location);
    }
  }

  lemma {:induction false} OneAlternativeSilence(previous: Json, k: nat, current: seq<Json>, keyword: string, location: string)
    requires previous.Arr? && k < |previous.items|
    ensures AlternativeFinding(previous, k, current, keyword, location) == []
            <==> AlternativeCompatible(previous, k, current)
    decreases previous, 1, 0
  {
    hide SchemaFindings, Compatible, Partner;
    var p := Partner(Identities(previous.items), k, Identities(current));
    if p.Some? {
      SilenceIsCompatibility(previous.items[k], current[p.value], AlternativeLocation(location, keyword, k));
    }
  }

  lemma {:induction false} AdditionalSilence(o: seq<Field>, n: seq<Field>, location: string)
    ensures AdditionalFindings(o, n, location) == [] <==> AdditionalCompatible(o, n)
    decreases Obj(o), 0, 0
  {
    var previous, current := Additional(o), Additional(n);
    if previous.Obj? && current.Obj? {
      SilenceIsCompatibility(previous, current, location + ".additionalProperties");
    }
  }

  // ---------- reflexivity ----------

  // A schema whose anyOf and oneOf are lists wherever the comparer looks.  Anything else under
  // these keywords is reported even against itself.
  ghost predicate ListedAlternatives(s: Json) {
    s.Obj? ==>
      && (Properties(s.fields).Obj? && Properties(s.fields) != Obj([]) ==>
          forall i :: 0 <= i < |Properties(s.fields).fields| ==> ListedAlternatives(Properties(s.fields).fields[i].value))
      && (Has(s.fields, "items") ==> ListedAlternatives(Find(s.fields, "items").value))
      && ListedUnder(s.fields, "anyOf")
      && ListedUnder(s.fields, "oneOf")
      && (Additional(s.fields).Obj? ==> ListedAlternatives(Additional(s.fields)))
  }

  ghost predicate ListedUnder(o: seq<Field>, keyword: string)
    decreases Obj(o), 0
  {
    var alternatives := Get(o, keyword);
    alternatives == Null || (alternatives.Arr? && AllListed(alternatives))
  }

  ghost predicate AllListed(alternatives: Json)
    requires alternatives.Arr?
    decreases alternatives, 1
  {
    forall i :: 0 <= i < |alternatives.items| ==> ListedAlternatives(alternatives.items[i])
  }

  lemma WellFormedField(fields: seq<Field>, name: string)
    requires WellFormed(Obj(fields))
    ensures Has(fields, name) ==> WellFormed(Find(fields, name).value)
  {
  }

  /** An unchanged schema has no findings, exactly when its alternatives are lists. */
  lemma {:induction false} CompatibleReflexive(s: Json)
    requires WellFormed(s)
    ensures Compatible(s, s) <==> ListedAlternatives(s)
    decreases s, 1
  {
    hide KeywordsKept, ReferenceKept, PropertiesCompatible, ItemsCompatible, AlternativesCompatible, AdditionalCompatible, ListedUnder;
    if s.Obj? {
      var o := s.fields;
      ReflexiveKeywords(o);
      ReflexiveProperties(o);
      ReflexiveItems(o);
      ReflexiveAlternatives(o, "anyOf");
      ReflexiveAlternatives(o, "oneOf");
      ReflexiveAdditional(o);
    } else {
      SameReflexive(s, Python);
    }
  }

  lemma ReflexiveKey(o: seq<Field>, key: string)
    requires WellFormed(Obj(o))
    ensures PyEq(Get(o, key), Get(o, key)) && KeyKept(o, o, key) && UpperKept(o, o, key) && LowerKept(o, o, key)
  {
    WellFormedField(o, key);
    SameReflexive(Get(o, key), Python);
  }

  lemma ReflexiveEnum(o: seq<Field>)
    requires WellFormed(Obj(o))
    ensures EnumKept(o, o)
  {
    var e := Get(o, "enum");
    if e.Arr? {
      WellFormedField(o, "enum");
      forall i | 0 <= i < |e.items| ensures PyIn(e.items[i], e.items) {
        SameReflexive(e.items[i], Python);
      }
    }
  }

  lemma ReflexiveKeywords(o: seq<Field>)
    requires WellFormed(Obj(o))
    ensures ReferenceKept(o, o) && KeywordsKept(o, o)
  {
    hide Get, PyEq, KeyKept, UpperKept, LowerKept, EnumKept, RequiredNames, UPPER_LIMITS, LOWER_LIMITS;
    forall key: string ensures KeyKept(o, o, key) && UpperKept(o, o, key) && LowerKept(o, o, key) {
      ReflexiveKey(o, key);
    }
    ReflexiveKey(o, "$ref");
    ReflexiveKey(o, "type");
    ReflexiveKey(o, "pattern");
    ReflexiveEnum(o);
  }

  lemma {:induction false} ReflexiveProperties(o: seq<Field>)
    requires WellFormed(Obj(o))
    ensures PropertiesCompatible(o, o)
            <==> (Properties(o).Obj? && Properties(o) != Obj([]) ==>
                  forall i :: 0 <= i < |Properties(o).fields| ==> ListedAlternatives(Properties(o).fields[i].value))
    decreases Obj(o), 0
  {
    hide Compatible, ListedAlternatives;
    WellFormedField(o, "properties");
    var props := Properties(o);
    if props.Obj? && props != Obj([]) {
      forall i | 0 <= i < |props.fields|
        ensures Find(props.fields, props.fields[i].name) == Some(props.fields[i].value)
        ensures Compatible(props.fields[i].value, props.fields[i].value) <==> ListedAlternatives(props.fields[i].value)
      {
        FindAt(props.fields, i);
        CompatibleReflexive(props.fields[i].value);
      }
    }
  }

  lemma {:induction false} ReflexiveItems(o: seq<Field>)
    requires WellFormed(Obj(o))
    ensures ItemsCompatible(o, o) <==> (Has(o, "items") ==> ListedAlternatives(Find(o, "items").value))
    decreases Obj(o), 0
  {
    hide Compatible, ListedAlternatives;
    WellFormedField(o, "items");
    if Has(o, "items") {
      CompatibleReflexive(Find(o, "items").value);
    }
  }

  lemma {:induction false} ReflexiveAlternatives(o: seq<Field>, keyword: string)
    requires WellFormed(Obj(o))
    ensures AlternativesCompatible(o, o, keyword) <==> ListedUnder(o, keyword)
    decreases Obj(o), 0
  {
    hide Compatible, Partner;
    var alternatives := Get(o, keyword);
    if alternatives.Arr? {
      WellFormedField(o, keyword);
      var ids := Identities(alternatives.items);
      forall i | 0 <= i < |alternatives.items|
        ensures AlternativeCompatible(alternatives, i, alternatives.items)
                <==> ListedAlternatives(alternatives.items[i])
      {
        PartnerReflexive(ids, i);
        CompatibleReflexive(alternatives.items[i]);
      }
      assert AllAlternativesCompatible(alternatives, 0, alternatives.items) <==> AllListed(alternatives);
    }
  }

  lemma {:induction false} ReflexiveAdditional(o: seq<Field>)
    requires WellFormed(Obj(o))
    ensures AdditionalCompatible(o, o) <==> (Additional(o).Obj? ==> ListedAlternatives(Additional(o)))
    decreases Obj(o), 0
  {
    hide Compatible, ListedAlternatives;
    WellFormedField(o, "additionalProperties");
    if Additional(o).Obj? {
      CompatibleReflexive(Additional(o));
    }
  }

  // ---------- transitivity ----------

  // The keywords of a middle schema have the types JSON Schema gives them.
  ghost predicate TypedKeywords(m: seq<Field>) {
    && (Get(m, "enum") == Null || Get(m, "enum").Arr?)
    && (forall k :: 0 <= k < |UPPER_LIMITS| ==> Get(m, UPPER_LIMITS[k]) == Null || IsNumber(Get(m, UPPER_LIMITS[k])))
    && (forall k :: 0 <= k < |LOWER_LIMITS| ==> Get(m, LOWER_LIMITS[k]) == Null || IsNumber(Get(m, LOWER_LIMITS[k])))
    && ArrayOrAbsent(m, "required")
    && ObjectOrAbsent(m, "properties")
  }

  // Wherever all of a, m and c are compared, m is typed.
  ghost predicate TypedBetween(a: Json, m: Json, c: Json)
    decreases a, 1
  {
    a.Obj? && m.Obj? && c.Obj? ==>
      && TypedKeywords(m.fields)
      && (Has(a.fields, "items") && Has(m.fields, "items") && Has(c.fields, "items") ==>
          TypedBetween(Find(a.fields, "items").value, Find(m.fields, "items").value, Find(c.fields, "items").value))
      && TypedProperties(a.fields, m.fields, c.fields)
      && TypedUnder(a.fields, m.fields, c.fields, "anyOf")
      && TypedUnder(a.fields, m.fields, c.fields, "oneOf")
      && (Additional(a.fields).Obj? ==> TypedBetween(Additional(a.fields), Additional(m.fields), Additional(c.fields)))
  }

  ghost predicate TypedProperties(a: seq<Field>, m: seq<Field>, c: seq<Field>)
    decreases Obj(a), 0
  {
    var x, y, z := Properties(a), Properties(m), Properties(c);
    x.Obj? && y.Obj? && z.Obj? && x != Obj([]) ==>
      forall i :: 0 <= i < |x.fields| ==>
        TypedBetween(x.fields[i].value, Get(y.fields, x.fields[i].name), Get(z.fields, x.fields[i].name))
  }

  ghost predicate TypedUnder(a: seq<Field>, m: seq<Field>, c: seq<Field>, keyword: string)
    decreases Obj(a), 0
  {
    var x, y, z := Get(a, keyword), Get(m, keyword), Get(c, keyword);
    x.Arr? && y.Arr? && z.Arr? ==> forall i :: 0 <= i < |x.items| ==> TypedAlternative(x, i, y.items, z.items)
  }

  ghost predicate TypedAlternative(x: Json, i: nat, y: seq<Json>, z: seq<Json>)
    requires x.Arr? && i < |x.items|
    decreases x, 1
  {
    var p := Partner(Identities(x.items), i, Identities(y));
    var q := Partner(Identities(x.items), i, Identities(z));
    p.Some? && q.Some? ==> TypedBetween(x.items[i], y[p.value], z[q.value])
  }

  // Wherever m drops an `items` that both a and c have, those two are compatible.
  ghost predicate Bridged(a: Json, m: Json, c: Json)
    decreases a, 1
  {
    a.Obj? && m.Obj? && c.Obj? ==>
      && BridgedItems(a.fields, m.fields, c.fields)
      && BridgedProperties(a.fields, m.fields, c.fields)
      && BridgedUnder(a.fields, m.fields, c.fields, "anyOf")
      && BridgedUnder(a.fields, m.fields, c.fields, "oneOf")
      && (Additional(a.fields).Obj? && Additional(c.fields).Obj? ==>
          Bridged(Additional(a.fields), Additional(m.fields), Additional(c.fields)))
  }

  ghost predicate BridgedItems(a: seq<Field>, m: seq<Field>, c: seq<Field>)
    decreases Obj(a), 0
  {
    Has(a, "items") && Has(c, "items") ==>
      var x, z := Find(a, "items").value, Find(c, "items").value;
      if Has(m, "items") then Bridged(x, Find(m, "items").value, z) else Compatible(x, z)
  }

  ghost predicate BridgedProperties(a: seq<Field>, m: seq<Field>, c: seq<Field>)
    decreases Obj(a), 0
  {
    var x, y, z := Properties(a), Properties(m), Properties(c);
    x.Obj? && y.Obj? && z.Obj? && x != Obj([]) ==>
      forall i :: 0 <= i < |x.fields| ==>
        Bridged(x.fields[i].value, Get(y.fields, x.fields[i].name), Get(z.fields, x.fields[i].name))
  }

  ghost predicate BridgedUnder(a: seq<Field>, m: seq<Field>, c: seq<Field>, keyword: string)
    decreases Obj(a), 0
  {
    var x, y, z := Get(a, keyword), Get(m, keyword), Get(c, keyword);
    x.Arr? && y.Arr? && z.Arr? ==> forall i :: 0 <= i < |x.items| ==> BridgedAlternative(x, i, y.items, z.items)
  }

  ghost predicate BridgedAlternative(x: Json, i: nat, y: seq<Json>, z: seq<Json>)
    requires x.Arr? && i < |x.items|
    decreases x, 1
  {
    var p := Partner(Identities(x.items), i, Identities(y));
    var q := Partner(Identities(x.items), i, Identities(z));
    p.Some? && q.Some? ==> Bridged(x.items[i], y[p.value], z[q.value])
  }

  /** Two silent comparisons compose exactly when no `items` that the middle schema drops comes back incompatible. */
  lemma {:induction false} CompatibleTransitive(a: Json, m: Json, c: Json)
    requires Compatible(a, m) && Compatible(m, c) && TypedBetween(a, m, c)
    ensures Compatible(a, c) <==> Bridged(a, m, c)
    decreases a, 1
  {
    hide KeywordsKept, PropertiesCompatible, ItemsCompatible, AlternativesCompatible, AdditionalCompatible,
      TypedProperties, TypedUnder, BridgedItems, BridgedProperties, BridgedUnder;
    if a.Obj? && m.Obj? && c.Obj? {
      var x, y, z := a.fields, m.fields, c.fields;
      SameTransitive(Get(x, "$ref"), Get(y, "$ref"), Get(z, "$ref"), Python);
      TransitiveKeywords(x, y, z);
      TransitiveProperties(x, y, z);
      TransitiveItems(x, y, z);
      TransitiveAlternatives(x, y, z, "anyOf");
      TransitiveAlternatives(x, y, z, "oneOf");
      TransitiveAdditional(x, y, z);
    } else {
      SameTransitive(a, m, c, Python);
    }
  }

  lemma TransitiveKeywords(a: seq<Field>, m: seq<Field>, c: seq<Field>)
    requires KeywordsKept(a, m) && KeywordsKept(m, c) && TypedKeywords(m)
    ensures KeywordsKept(a, c)
  {
    hide PyEq, TypeKept, EnumKept, KeyKept, UpperKept, LowerKept, RequiredKept;
    TransitiveLimits(a, m, c);
    TransitiveRequired(a, m, c);
    TransitiveKey(a, m, c, "type");
    TransitiveKey(a, m, c, "format");
    TransitiveKey(a, m, c, "const");
    TransitiveKey(a, m, c, "pattern");
    TransitiveEnum(a, m, c);
  }

  lemma TransitiveLimits(a: seq<Field>, m: seq<Field>, c: seq<Field>)
    requires TypedKeywords(m)
    ensures forall k :: 0 <= k < |UPPER_LIMITS| && UpperKept(a, m, UPPER_LIMITS[k]) && UpperKept(m, c, UPPER_LIMITS[k])
              ==> UpperKept(a, c, UPPER_LIMITS[k])
    ensures forall k :: 0 <= k < |LOWER_LIMITS| && LowerKept(a, m, LOWER_LIMITS[k]) && LowerKept(m, c, LOWER_LIMITS[k])
              ==> LowerKept(a, c, LOWER_LIMITS[k])
  {
    hide Find;
  }

  lemma TransitiveRequired(a: seq<Field>, m: seq<Field>, c: seq<Field>)
    requires RequiredKept(a, m) && RequiredKept(m, c) && ArrayOrAbsent(m, "required")
    ensures RequiredKept(a, c)
  {
    hide RequiredNames;
  }

  lemma TransitiveKey(a: seq<Field>, m: seq<Field>, c: seq<Field>, key: string)
    ensures PyEq(Get(a, key), Get(m, key)) && PyEq(Get(m, key), Get(c, key)) ==> PyEq(Get(a, key), Get(c, key))
    ensures KeyKept(a, m, key) && KeyKept(m, c, key) ==> KeyKept(a, c, key)
    ensures key == "type" && TypeKept(a, m) && TypeKept(m, c) ==> TypeKept(a, c)
  {
    if PyEq(Get(a, key), Get(m, key)) && PyEq(Get(m, key), Get(c, key)) {
      SameTransitive(Get(a, key), Get(m, key), Get(c, key), Python);
    }
  }

  lemma TransitiveEnum(a: seq<Field>, m: seq<Field>, c: seq<Field>)
    requires EnumKept(a, m) && EnumKept(m, c) && (Get(m, "enum") == Null || Get(m, "enum").Arr?)
    ensures EnumKept(a, c)
  {
    var x, y, z := Get(a, "enum"), Get(m, "enum"), Get(c, "enum");
    if x.Arr? && y.Arr? && z.Arr? {
      forall i | 0 <= i < |x.items| ensures PyIn(x.items[i], z.items) {
        assert PyIn(x.items[i], y.items);
        var j :| 0 <= j < |y.items| && PyEq(x.items[i], y.items[j]);
        assert PyIn(y.items[j], z.items);
        var k :| 0 <= k < |z.items| && PyEq(y.items[j], z.items[k]);
        SameTransitive(x.items[i], y.items[j], z.items[k], Python);
      }
    }
  }

  lemma {:induction false} TransitiveProperties(a: seq<Field>, m: seq<Field>, c: seq<Field>)
    requires PropertiesCompatible(a, m) && PropertiesCompatible(m, c) && ObjectOrAbsent(m, "properties")
    requires TypedProperties(a, m, c)
    ensures PropertiesCompatible(a, c) <==> BridgedProperties(a, m, c)
    decreases Obj(a), 0
  {
    hide Compatible, TypedBetween, Bridged;
    var x, y, z := Properties(a), Properties(m), Properties(c);
    if x.Obj? && z.Obj? && x != Obj([]) {
      forall i | 0 <= i < |x.fields|
        ensures Find(z.fields, x.fields[i].name).Some?
        ensures Compatible(x.fields[i].value, Find(z.fields, x.fields[i].name).value)
                <==> Bridged(x.fields[i].value, Get(y.fields, x.fields[i].name), Get(z.fields, x.fields[i].name))
      {
        var p := Find(y.fields, x.fields[i].name);
        assert p.Some? && Compatible(x.fields[i].value, p.value);
        var j :| 0 <= j < |y.fields| && y.fields[j] == Field(x.fields[i].name, p.value);
        var q := Find(z.fields, y.fields[j].name);
        assert q.Some? && Compatible(y.fields[j].value, q.value);
        assert TypedBetween(x.fields[i].value, p.value, q.value);
        CompatibleTransitive(x.fields[i].value, p.value, q.value);
      }
    }
  }

  lemma {:induction false} TransitiveItems(a: seq<Field>, m: seq<Field>, c: seq<Field>)
    requires ItemsCompatible(a, m) && ItemsCompatible(m, c)
    requires Has(a, "items") && Has(m, "items") && Has(c, "items") ==>
               TypedBetween(Find(a, "items").value, Find(m, "items").value, Find(c, "items").value)
    ensures ItemsCompatible(a, c) <==> BridgedItems(a, m, c)
    decreases Obj(a), 0
  {
    hide Compatible, TypedBetween, Bridged;
    if Has(a, "items") && Has(m, "items") && Has(c, "items") {
      CompatibleTransitive(Find(a, "items").value, Find(m, "items").value, Find(c, "items").value);
    }
  }

  lemma {:induction false} TransitiveAlternatives(a: seq<Field>, m: seq<Field>, c: seq<Field>, keyword: string)
    requires AlternativesCompatible(a, m, keyword) && AlternativesCompatible(m, c, keyword)
    requires TypedUnder(a, m, c, keyword)
    ensures AlternativesCompatible(a, c, keyword) <==> BridgedUnder(a, m, c, keyword)
    decreases Obj(a), 0
  {
    hide Compatible, TypedBetween, Bridged, Partner;
    var x, y, z := Get(a, keyword), Get(m, keyword), Get(c, keyword);
    if x.Arr? {
      forall i | 0 <= i < |x.items| ensures AlternativeCompatible(x, i, z.items) <==> BridgedAlternative(x, i, y.items, z.items) {
        assert AlternativeCompatible(x, i, y.items) && TypedAlternative(x, i, y.items, z.items);
        var p := Partner(Identities(x.items), i, Identities(y.items)).value;
        assert AlternativeCompatible(y, p, z.items);
        PartnerTransitive(Identities(x.items), i, Identities(y.items), Identities(z.items));
        var q := Partner(Identities(y.items), p, Identities(z.items)).value;
        CompatibleTransitive(x.items[i], y.items[p], z.items[q]);
      }
      assert AllAlternativesCompatible(x, 0, z.items) <==> BridgedUnder(a, m, c, keyword);
    }
  }

  lemma {:induction false} TransitiveAdditional(a: seq<Field>, m: seq<Field>, c: seq<Field>)
    requires AdditionalCompatible(a, m) && AdditionalCompatible(m, c)
    requires Additional(a).Obj? ==> TypedBetween(Additional(a), Additional(m), Additional(c))
    ensures AdditionalCompatible(a, c) <==>
            (Additional(a).Obj? && Additional(c).Obj? ==> Bridged(Additional(a), Additional(m), Additional(c)))
    decreases Obj(a), 0
  {
    hide Compatible, TypedBetween, Bridged;
    if Additional(c).Obj? {
      CompatibleTransitive(Additional(a), Additional(m), Additional(c));
    }
  }

  lemma AbsentKey(o: seq<Field>, n: seq<Field>, key: string)
    requires !Has(o, key) && !Has(n, key)
    ensures PyEq(Get(o, key), Get(n, key)) && KeyKept(o, n, key) && UpperKept(o, n, key) && LowerKept(o, n, key)
    ensures AlternativesCompatible(o, n, key)
    ensures key == "enum" ==> EnumKept(o, n)
    ensures key == "required" ==> RequiredKept(o, n)
    ensures key == "properties" ==> PropertiesCompatible(o, n)
    ensures key == "additionalProperties" ==> AdditionalCompatible(o, n)
    ensures key == "items" ==> ItemsCompatible(o, n)
  {
    assert Get(o, key) == Null && Get(n, key) == Null;
    hide Compatible, Find;
  }

  // Schemas that have at most one keyword.
  ghost predicate Lone(s: seq<Field>, key: string) { forall i :: 0 <= i < |s| ==> s[i].name == key }

  predicate IsLoneKey(key: string) { key in {"type", "const", "enum", "items", "properties", "oneOf"} }

  lemma NoLimit(key: string)
    requires IsLoneKey(key)
    ensures forall k :: 0 <= k < |UPPER_LIMITS| ==> UPPER_LIMITS[k] != key
    ensures forall k :: 0 <= k < |LOWER_LIMITS| ==> LOWER_LIMITS[k] != key
  {
    forall k | 0 <= k < |UPPER_LIMITS| ensures UPPER_LIMITS[k] != key {
      assert UPPER_LIMITS[k][0] == 'm' || |UPPER_LIMITS[k]| == 16;
    }
    forall k | 0 <= k < |LOWER_LIMITS| ensures LOWER_LIMITS[k] != key {
      assert LOWER_LIMITS[k][0] == 'm' || |LOWER_LIMITS[k]| == 16;
    }
  }

  lemma LoneAbsent(o: seq<Field>, n: seq<Field>, key: string, other: string)
    requires Lone(o, key) && Lone(n, key) && other != key
    ensures !Has(o, other) && !Has(n, other)
  {
  }

  // Two schemas with one and the same keyword: no other keyword without subschemas is reported.
  lemma LoneKeywords(o: seq<Field>, n: seq<Field>, key: string)
    requires Lone(o, key) && Lone(n, key) && IsLoneKey(key)
    requires (key == "type" ==> TypeKept(o, n)) && (key == "const" ==> KeyKept(o, n, "const")) && (key == "enum" ==> EnumKept(o, n))
    ensures ReferenceKept(o, n) && KeywordsKept(o, n)
  {
    hide Lone, Has, PyEq, Get, KeyKept, UpperKept, LowerKept, EnumKept, RequiredKept, UPPER_LIMITS, LOWER_LIMITS;
    NoLimit(key);
    forall other | other != key ensures KeyKept(o, n, other) && UpperKept(o, n, other) && LowerKept(o, n, other)
    {
      LoneAbsent(o, n, key, other);
      AbsentKey(o, n, other);
    }
    OtherKey(o, n, key, "$ref");
    OtherKey(o, n, key, "type");
    OtherKey(o, n, key, "format");
    OtherKey(o, n, key, "const");
    OtherKey(o, n, key, "enum");
    OtherKey(o, n, key, "pattern");
    OtherKey(o, n, key, "required");
  }

  // What is not said is kept.
  lemma OtherKey(o: seq<Field>, n: seq<Field>, key: string, other: string)
    requires Lone(o, key) && Lone(n, key)
    ensures other != key ==>
              && PyEq(Get(o, other), Get(n, other)) && KeyKept(o, n, other) && AlternativesCompatible(o, n, other)
              && (other == "enum" ==> EnumKept(o, n)) && (other == "required" ==> RequiredKept(o, n))
              && (other == "properties" ==> PropertiesCompatible(o, n)) && (other == "items" ==> ItemsCompatible(o, n))
              && (other == "additionalProperties" ==> AdditionalCompatible(o, n))
  {
    hide Lone, PyEq, Get, KeyKept, EnumKept, RequiredKept, PropertiesCompatible, ItemsCompatible, AdditionalCompatible, AlternativesCompatible;
    if other != key {
      LoneAbsent(o, n, key, other);
      AbsentKey(o, n, other);
    }
  }

  // Nor is any keyword with subschemas.
  lemma LoneNested(o: seq<Field>, n: seq<Field>, key: string)
    requires Lone(o, key) && Lone(n, key) && IsLoneKey(key)
    requires (key == "properties" ==> PropertiesCompatible(o, n)) && (key == "items" ==> ItemsCompatible(o, n))
    requires key == "oneOf" ==> AlternativesCompatible(o, n, "oneOf")
    ensures PropertiesCompatible(o, n) && ItemsCompatible(o, n) && AdditionalCompatible(o, n)
    ensures AlternativesCompatible(o, n, "anyOf") && AlternativesCompatible(o, n, "oneOf")
  {
    hide Lone, Has, PyEq, Get, PropertiesCompatible, ItemsCompatible, AdditionalCompatible, AlternativesCompatible;
    OtherKey(o, n, key, "properties");
    OtherKey(o, n, key, "items");
    OtherKey(o, n, key, "additionalProperties");
    OtherKey(o, n, key, "anyOf");
    OtherKey(o, n, key, "oneOf");
  }

  /** Two schemas with one and the same keyword compare silently when that keyword does. */
  lemma LoneCompatible(o: seq<Field>, n: seq<Field>, key: string)
    requires Lone(o, key) && Lone(n, key) && IsLoneKey(key)
    requires (key == "type" ==> TypeKept(o, n)) && (key == "const" ==> KeyKept(o, n, "const")) && (key == "enum" ==> EnumKept(o, n))
    requires (key == "properties" ==> PropertiesCompatible(o, n)) && (key == "items" ==> ItemsCompatible(o, n))
    requires key == "oneOf" ==> AlternativesCompatible(o, n, "oneOf")
    ensures Compatible(Obj(o), Obj(n))
  {
    LoneKeywords(o, n, key);
    LoneNested(o, n, key);
    hide Lone, IsLoneKey, TypeKept, KeyKept, EnumKept, ReferenceKept, KeywordsKept, PropertiesCompatible, ItemsCompatible, AdditionalCompatible,
      AlternativesCompatible;
  }

  const ANY_ITEMS := [Field("items", Bool(true))]
  const NO_ITEMS := [Field("items", Bool(false))]

  /** Transitivity fails when the middle schema drops `items`: neither step reports anything. */
  lemma DroppedItemsBreakTheChain()
    ensures Compatible(Obj(ANY_ITEMS), Obj([])) && Compatible(Obj([]), Obj(NO_ITEMS)) && !Compatible(Obj(ANY_ITEMS), Obj(NO_ITEMS))
  {
    hide KeywordsKept, ReferenceKept, PropertiesCompatible, AdditionalCompatible, AlternativesCompatible;
    assert Find(ANY_ITEMS, "items") == Some(Bool(true)) && Find(NO_ITEMS, "items") == Some(Bool(false));
    assert !Compatible(Bool(true), Bool(false));
    assert !ItemsCompatible(ANY_ITEMS, NO_ITEMS) && ItemsCompatible(ANY_ITEMS, []) && ItemsCompatible([], NO_ITEMS);
    LoneCompatible(ANY_ITEMS, [], "items");
    LoneCompatible([], NO_ITEMS, "items");
  }
}
