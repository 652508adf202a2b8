/**
 * What a schema report contains, exactly: the issues, keyword by keyword, of every pair of schemas that
 * the walk reaches, each at its location.
 */
module SchemaReport {
  import opened Wrappers
  import opened Json
  import opened AlternativeMatching
  import opened SchemaContract
  import opened JsonParser
  import opened CanonicalJson
  import opened Decimal

  // ---------- the issues of one pair of schemas ----------

  ghost predicate HasIssue(previous: Json, current: Json, issue: Issue) {
    if !previous.Obj? || !current.Obj? then issue == ChangedShape && !PyEq(previous, current)
    else
      var o, n := previous.fields, current.fields;
      if !PyEq(Get(o, "$ref"), Get(n, "$ref")) then issue == ChangedReference
      else KeywordIssue(o, n, issue) || SubschemaIssue(o, n, issue)
  }

  ghost predicate KeywordIssue(o: seq<Field>, n: seq<Field>, issue: Issue) {
    match issue
    case ChangedType(x, y) => x == Get(o, "type") && y == Get(n, "type") && x != Null && !PyEq(x, y)
    case ChangedKey(key) => key in {"format", "const"} && Has(o, key) && !PyEq(Get(o, key), Get(n, key))
    case AddedKey(key) => key in {"format", "const"} && !Has(o, key) && Has(n, key)
    case AddedEnum => Get(o, "enum") == Null && Get(n, "enum").Arr?
    case NarrowedEnum(gone) =>
      Get(o, "enum").Arr? && Get(n, "enum").Arr? && gone != [] && gone == Without(Get(o, "enum").items, Get(n, "enum").items)
    case AddedLimit(key, limit) =>
      (IsUpperLimit(key) || IsLowerLimit(key)) && Get(o, key) == Null && limit == Get(n, key) && IsNumber(limit)
    case TightenedLimit(key, x, y) =>
      && x == Get(o, key) && y == Get(n, key) && IsNumber(x) && IsNumber(y)
      && if IsUpperLimit(key) then NumberOf(y) < NumberOf(x) else IsLowerLimit(key) && NumberOf(y) > NumberOf(x)
    case ChangedPattern => !PyEq(Get(o, "pattern"), Get(n, "pattern"))
    case AddedRequired(names) =>
      && (Has(o, "required") ==> Get(o, "required").Arr?) && (Has(n, "required") ==> Get(n, "required").Arr?)
      && names != {} && forall name :: name in names <==> IsRequired(n, name) && !IsRequired(o, name)
    case _ => false
  }

  predicate IsUpperLimit(key: string) { key in {"maximum", "exclusiveMaximum", "maxLength", "maxItems", "maxProperties"} }

  predicate IsLowerLimit(key: string) { key in {"minimum", "exclusiveMinimum", "minLength", "minItems", "minProperties"} }

  predicate IsRequired(s: seq<Field>, name: string) { Get(s, "required").Arr? && Str(name) in Get(s, "required").items }

  // The items of xs that no item of ys equals, in order.
  function Without(xs: seq<Json>, ys: seq<Json>): seq<Json> {
    if xs == [] then []
    else
      var n := |xs| - 1;
      Without(xs[..n], ys) + if exists j :: 0 <= j < |ys| && PyEq(xs[n], ys[j]) then [] else [xs[n]]
  }

  ghost predicate SubschemaIssue(o: seq<Field>, n: seq<Field>, issue: Issue) {
    || PropertyIssue(o, n, issue) || AdditionalIssue(o, n, issue)
    || AlternativesIssue("anyOf", Get(o, "anyOf"), Get(n, "anyOf"), issue)
    || AlternativesIssue("oneOf", Get(o, "oneOf"), Get(n, "oneOf"), issue)
  }

  ghost predicate PropertyIssue(o: seq<Field>, n: seq<Field>, issue: Issue) {
    && issue.RemovedProperty? && Get(o, "properties").Obj? && Has(Get(o, "properties").fields, issue.name)
    && (Has(n, "properties") ==> Get(n, "properties").Obj? && !Has(Get(n, "properties").fields, issue.name))
  }

  // The issues of the two lists under one of these keywords.
  ghost predicate AlternativesIssue(keyword: string, x: Json, y: Json, issue: Issue) {
    || (issue == AddedAlternatives(keyword) && x == Null && y.Arr?)
    || (issue == ChangedAlternatives(keyword) && x != Null && !(x.Arr? && y.Arr?))
    || (issue.RemovedAlternative? && issue.keyword == keyword && x.Arr? && y.Arr?
        && Count(Identities(x.items), issue.identity) > Count(Identities(y.items), issue.identity))
  }

  ghost predicate AdditionalIssue(o: seq<Field>, n: seq<Field>, issue: Issue) {
    match issue
    case ForbadeAdditional =>
      Get(n, "additionalProperties") == Bool(false) && Get(o, "additionalProperties") != Bool(false)
    case ConstrainedAdditional => Get(n, "additionalProperties").Obj? && !Get(o, "additionalProperties").Obj?
    case _ => false
  }

  // ---------- the pairs that are reached ----------

  datatype Pair = Pair(previous: Json, current: Json, location: string)

  datatype Turn = Property(i: nat) | Items | Alternative(keyword: string, i: nat) | Extra

  // Where a turn leads from a pair of objects with the same reference.
  ghost function Subpair(p: Pair, turn: Turn): (r: Option<Pair>)
    ensures r.Some? ==> r.value.previous < p.previous
  {
    if !p.previous.Obj? || !p.current.Obj? || !PyEq(Get(p.previous.fields, "$ref"), Get(p.current.fields, "$ref")) then None
    else
      var o, n := p.previous.fields, p.current.fields;
      match turn
      case Property(i) => PropertyPair(Get(o, "properties"), Get(n, "properties"), i, p.location)
      case Items => if Has(o, "items") && Has(n, "items") then Some(Pair(Get(o, "items"), Get(n, "items"), p.location + ".items")) else None
      case Alternative(keyword, i) =>
        if keyword in {"anyOf", "oneOf"} then AlternativePair(Get(o, keyword), Get(n, keyword), i, p.location + "." + keyword) else None
      case Extra =>
        var x, y := Get(o, "additionalProperties"), Get(n, "additionalProperties");
        if x.Obj? && y.Obj? then Some(Pair(x, y, p.location + ".additionalProperties")) else None
  }

  // The i-th old property and the new one of its name.
  ghost function PropertyPair(x: Json, y: Json, i: nat, location: string): (r: Option<Pair>)
    ensures r.Some? ==> r.value.previous < x
  {
    if x.Obj? && y.Obj? && i < |x.fields| && Has(y.fields, x.fields[i].name)
    then Some(Pair(x.fields[i].value, Get(y.fields, x.fields[i].name), location + "." + x.fields[i].name))
    else None
  }

  // The i-th old alternative and the new one matched with it.
  ghost function AlternativePair(x: Json, y: Json, i: nat, location: string): (r: Option<Pair>)
    ensures r.Some? ==> r.value.previous < x
  {
    if x.Arr? && y.Arr? && i < |x.items| then
      match Partner(Identities(x.items), i, Identities(y.items))
      case Some(p) => Some(Pair(x.items[i], y.items[p], location + "[" + Digits(i) + "]"))
      case None => None
    else None
  }

  ghost function Reached(p: Pair, turns: seq<Turn>): Option<Pair>
    decreases |turns|
  {
    if turns == [] then Some(p)
    else
      match Subpair(p, turns[0])
      case None => None
      case Some(q) => Reached(q, turns[1..])
  }

  ghost predicate Reports(p: Pair, turns: seq<Turn>, f: Finding) {
    var q := Reached(p, turns);
    q.Some? && f.location == q.value.location && HasIssue(q.value.previous, q.value.current, f.issue)
  }

  function Findings(p: Pair): seq<Finding> { SchemaFindings(p.previous, p.current, p.location) }

  // ---------- keywords ----------

  lemma {:induction false} RemovedAppend(xs: seq<Json>, x: Json, ys: seq<Json>)
    ensures RemovedItems(xs + [x], ys) == RemovedItems(xs, ys) + if PyIn(x, ys) then [] else [x]
  {
    hide PyIn;
    if xs == [] {
      assert RemovedItems([x], ys) == if PyIn(x, ys) then [] else [x];
    } else {
      assert (xs + [x])[1..] == xs[1..] + [x];
      RemovedAppend(xs[1..], x, ys);
    }
  }

  lemma {:induction false} WithoutIsRemoved(xs: seq<Json>, ys: seq<Json>)
    ensures Without(xs, ys) == RemovedItems(xs, ys)
  {
    if xs != [] {
      var n := |xs| - 1;
      assert xs == xs[..n] + [xs[n]];
      WithoutIsRemoved(xs[..n], ys);
      RemovedAppend(xs[..n], xs[n], ys);
    }
  }

  lemma {:induction false} UpperMembers(o: seq<Field>, n: seq<Field>, keys: seq<string>, k: nat, location: string, f: Finding)
    requires k <= |keys|
    ensures f in UpperFindings(o, n, keys, k, location)
            <==> exists i :: k <= i < |keys| && f in LimitFinding(o, n, keys[i], UpperKept(o, n, keys[i]), location)
    decreases |keys| - k
  {
    hide UpperKept, LimitFinding;
    if k < |keys| {
      UpperMembers(o, n, keys, k + 1, location, f);
      var first, rest := LimitFinding(o, n, keys[k], UpperKept(o, n, keys[k]), location), UpperFindings(o, n, keys, k + 1, location);
      assert UpperFindings(o, n, keys, k, location) == first + rest;
      hide UpperFindings;
      assert f in first + rest <==> f in first || f in rest;
    }
  }

  lemma {:induction false} LowerMembers(o: seq<Field>, n: seq<Field>, keys: seq<string>, k: nat, location: string, f: Finding)
    requires k <= |keys|
    ensures f in LowerFindings(o, n, keys, k, location)
            <==> exists i :: k <= i < |keys| && f in LimitFinding(o, n, keys[i], LowerKept(o, n, keys[i]), location)
    decreases |keys| - k
  {
    hide LowerKept, LimitFinding;
    if k < |keys| {
      LowerMembers(o, n, keys, k + 1, location, f);
      var first, rest := LimitFinding(o, n, keys[k], LowerKept(o, n, keys[k]), location), LowerFindings(o, n, keys, k + 1, location);
      assert LowerFindings(o, n, keys, k, location) == first + rest;
      hide LowerFindings;
      assert f in first + rest <==> f in first || f in rest;
    }
  }

  // What the two kinds of limit findings say.
  ghost predicate UpperIssue(o: seq<Field>, n: seq<Field>, key: string, issue: Issue) {
    var x, y := Get(o, key), Get(n, key);
    || (issue == AddedLimit(key, y) && x == Null && IsNumber(y))
    || (issue == TightenedLimit(key, x, y) && IsNumber(x) && IsNumber(y) && NumberOf(y) < NumberOf(x))
  }

  ghost predicate LowerIssue(o: seq<Field>, n: seq<Field>, key: string, issue: Issue) {
    var x, y := Get(o, key), Get(n, key);
    || (issue == AddedLimit(key, y) && x == Null && IsNumber(y))
    || (issue == TightenedLimit(key, x, y) && IsNumber(x) && IsNumber(y) && NumberOf(y) > NumberOf(x))
  }

  lemma OneLimit(o: seq<Field>, n: seq<Field>, key: string, location: string, f: Finding)
    ensures f in LimitFinding(o, n, key, UpperKept(o, n, key), location) <==> f.location == location && UpperIssue(o, n, key, f.issue)
    ensures f in LimitFinding(o, n, key, LowerKept(o, n, key), location) <==> f.location == location && LowerIssue(o, n, key, f.issue)
  {
    hide Find, Get;
  }

  lemma UpperKeys(key: string)
    ensures IsUpperLimit(key) <==> exists i :: 0 <= i < |UPPER_LIMITS| && UPPER_LIMITS[i] == key
  {
    assert UPPER_LIMITS[0] == "maximum" && UPPER_LIMITS[1] == "exclusiveMaximum" && UPPER_LIMITS[2] == "maxLength"
           && UPPER_LIMITS[3] == "maxItems" && UPPER_LIMITS[4] == "maxProperties";
  }

  lemma LowerKeys(key: string)
    ensures IsLowerLimit(key) <==> exists i :: 0 <= i < |LOWER_LIMITS| && LOWER_LIMITS[i] == key
  {
    assert LOWER_LIMITS[0] == "minimum" && LOWER_LIMITS[1] == "exclusiveMinimum" && LOWER_LIMITS[2] == "minLength"
           && LOWER_LIMITS[3] == "minItems" && LOWER_LIMITS[4] == "minProperties";
  }

  function KeyOf(issue: Issue): string {
    match issue case AddedLimit(key, _) => key case TightenedLimit(key, _, _) => key case _ => ""
  }

  lemma UpperLimitMembers(o: seq<Field>, n: seq<Field>, location: string, f: Finding)
    ensures f in UpperFindings(o, n, UPPER_LIMITS, 0, location)
            <==> f.location == location && IsUpperLimit(KeyOf(f.issue)) && UpperIssue(o, n, KeyOf(f.issue), f.issue)
  {
    UpperMembers(o, n, UPPER_LIMITS, 0, location, f);
    UpperKeys(KeyOf(f.issue));
    assert forall key :: UpperIssue(o, n, key, f.issue) ==> key == KeyOf(f.issue);
    hide UPPER_LIMITS, UpperFindings, LimitFinding, UpperKept, UpperIssue, KeyOf;
    forall i | 0 <= i < |UPPER_LIMITS|
      ensures f in LimitFinding(o, n, UPPER_LIMITS[i], UpperKept(o, n, UPPER_LIMITS[i]), location)
              <==> f.location == location && UpperIssue(o, n, UPPER_LIMITS[i], f.issue)
    {
      OneLimit(o, n, UPPER_LIMITS[i], location, f);
    }
  }

  lemma LowerLimitMembers(o: seq<Field>, n: seq<Field>, location: string, f: Finding)
    ensures f in LowerFindings(o, n, LOWER_LIMITS, 0, location)
            <==> f.location == location && IsLowerLimit(KeyOf(f.issue)) && LowerIssue(o, n, KeyOf(f.issue), f.issue)
  {
    LowerMembers(o, n, LOWER_LIMITS, 0, location, f);
    LowerKeys(KeyOf(f.issue));
    assert forall key :: LowerIssue(o, n, key, f.issue) ==> key == KeyOf(f.issue);
    hide LOWER_LIMITS, LowerFindings, LimitFinding, LowerKept, LowerIssue, KeyOf;
    forall i | 0 <= i < |LOWER_LIMITS|
      ensures f in LimitFinding(o, n, LOWER_LIMITS[i], LowerKept(o, n, LOWER_LIMITS[i]), location)
              <==> f.location == location && LowerIssue(o, n, LOWER_LIMITS[i], f.issue)
    {
      OneLimit(o, n, LOWER_LIMITS[i], location, f);
    }
  }

  lemma LimitMembers(o: seq<Field>, n: seq<Field>, location: string, f: Finding)
    ensures f in LimitFindings(o, n, location)
            <==> f.location == location && (f.issue.AddedLimit? || f.issue.TightenedLimit? || f.issue.ChangedPattern?)
                 && KeywordIssue(o, n, f.issue)
  {
    UpperLimitMembers(o, n, location, f);
    LowerLimitMembers(o, n, location, f);
    LimitIssues(o, n, f.issue);
    hide UPPER_LIMITS, LOWER_LIMITS, UpperFindings, LowerFindings, KeywordIssue, UpperIssue, LowerIssue, PatternKept,
      IsUpperLimit, IsLowerLimit, KeyOf;
  }

  lemma LimitIssues(o: seq<Field>, n: seq<Field>, issue: Issue)
    ensures (IsUpperLimit(KeyOf(issue)) && UpperIssue(o, n, KeyOf(issue), issue))
            || (IsLowerLimit(KeyOf(issue)) && LowerIssue(o, n, KeyOf(issue), issue))
            || (issue == ChangedPattern && !PatternKept(o, n))
            <==> (issue.AddedLimit? || issue.TightenedLimit? || issue.ChangedPattern?) && KeywordIssue(o, n, issue)
  {
    if IsUpperLimit(KeyOf(issue)) {
      NoBothLimit(KeyOf(issue));
    }
    hide Find, Get, Same, IsUpperLimit, IsLowerLimit, IsRequired, Without;
  }

  lemma NoBothLimit(key: string)
    requires IsUpperLimit(key)
    ensures !IsLowerLimit(key)
  {
    assert key[1] == 'a' || (|key| > 10 && key[10] == 'a');
  }

  lemma RequiredMembers(o: seq<Field>, n: seq<Field>, location: string, f: Finding)
    ensures f in RequiredFindings(o, n, location)
            <==> f.location == location && f.issue.AddedRequired? && KeywordIssue(o, n, f.issue)
  {
    hide Find, Get;
    NamesAre(o);
    NamesAre(n);
    hide RequiredNames, IsRequired;
    var added := RequiredNames(n) - RequiredNames(o);
    if f.issue.AddedRequired? && KeywordIssue(o, n, f.issue) {
      assert f.issue.names == added;
      var name :| name in added;
    }
    if f in RequiredFindings(o, n, location) {
      var name :| name in RequiredNames(n) && name !in RequiredNames(o);
      assert name in added;
    }
  }

  lemma NamesAre(s: seq<Field>)
    ensures forall name :: name in RequiredNames(s) <==> IsRequired(s, name)
  {
    hide Find, Get;
    forall name ensures name in RequiredNames(s) <==> IsRequired(s, name) {
      if IsRequired(s, name) {
        var i :| 0 <= i < |Get(s, "required").items| && Get(s, "required").items[i] == Str(name);
      }
    }
  }

  lemma EnumMembers(o: seq<Field>, n: seq<Field>, location: string, f: Finding)
    ensures f in EnumFindings(o, n, location)
            <==> f.location == location && (f.issue.AddedEnum? || f.issue.NarrowedEnum?) && KeywordIssue(o, n, f.issue)
  {
    hide Find, Get, RemovedItems, Without;
    if Get(o, "enum").Arr? && Get(n, "enum").Arr? {
      WithoutIsRemoved(Get(o, "enum").items, Get(n, "enum").items);
    }
  }

  lemma KeyMembers(o: seq<Field>, n: seq<Field>, location: string, f: Finding)
    ensures f in KeyFindings(o, n, "format", location) || f in KeyFindings(o, n, "const", location)
            <==> f.location == location && (f.issue.ChangedKey? || f.issue.AddedKey?) && KeywordIssue(o, n, f.issue)
  {
    hide Find, Get, PyEq;
  }

  lemma KeywordMembers(o: seq<Field>, n: seq<Field>, location: string, f: Finding)
    ensures f in KeywordFindings(o, n, location) <==> f.location == location && KeywordIssue(o, n, f.issue)
  {
    KeyMembers(o, n, location, f);
    EnumMembers(o, n, location, f);
    LimitMembers(o, n, location, f);
    RequiredMembers(o, n, location, f);
    hide Find, Get, PyEq, KeyFindings, EnumFindings, LimitFindings, RequiredFindings;
  }

  // ---------- subschemas ----------

  // The finding is one of the pair that this turn leads to.
  ghost predicate FoundAt(p: Pair, turn: Turn, f: Finding) { InPair(Subpair(p, turn), f) }

  ghost predicate InPair(q: Option<Pair>, f: Finding) { q.Some? && f in Findings(q.value) }

  // Two objects with the same reference, whose keywords are compared.
  ghost predicate IsCompared(p: Pair) {
    p.previous.Obj? && p.current.Obj? && PyEq(Get(p.previous.fields, "$ref"), Get(p.current.fields, "$ref"))
  }

  lemma {:induction false} PropertyMembers(props: Json, k: nat, others: seq<Field>, location: string, f: Finding)
    requires props.Obj? && k <= |props.fields|
    ensures f in PropertyFindings(props, k, others, location)
            <==> exists i :: k <= i < |props.fields| && f in PropertyFinding(props.fields[i], others, location)
    decreases |props.fields| - k
  {
    hide PropertyFinding;
    if k < |props.fields| {
      PropertyMembers(props, k + 1, others, location, f);
    }
  }

  lemma OneProperty(x: Json, y: Json, i: nat, location: string, f: Finding)
    requires x.Obj? && y.Obj? && i < |x.fields|
    ensures f in PropertyFinding(x.fields[i], y.fields, location)
            <==> if Has(y.fields, x.fields[i].name)
                 then PropertyPair(x, y, i, location).Some? && f in Findings(PropertyPair(x, y, i, location).value)
                 else f == Finding(location, RemovedProperty(x.fields[i].name))
  {
    hide SchemaFindings;
  }

  lemma ListedProperties(x: Json, y: Json, location: string, f: Finding)
    requires x.Obj? && y.Obj?
    ensures f in PropertyFindings(x, 0, y.fields, location)
            <==> (exists i: nat :: InPair(PropertyPair(x, y, i, location), f))
                 || (f.location == location && f.issue.RemovedProperty? && Has(x.fields, f.issue.name) && !Has(y.fields, f.issue.name))
  {
    PropertyMembers(x, 0, y.fields, location, f);
    forall i: nat | i < |x.fields| {
      OneProperty(x, y, i, location, f);
    }
    assert forall i: nat :: InPair(PropertyPair(x, y, i, location), f) ==> i < |x.fields| && Has(y.fields, x.fields[i].name);
    if f.issue.RemovedProperty? && Has(x.fields, f.issue.name) {
      var i :| 0 <= i < |x.fields| && x.fields[i].name == f.issue.name;
    }
    hide PropertyFinding, PropertyFindings, PropertyPair, SchemaFindings, Has;
  }

  lemma PropertiesMembers(p: Pair, f: Finding)
    requires IsCompared(p)
    ensures var o, n := p.previous.fields, p.current.fields;
            f in PropertiesFindings(o, n, p.location)
            <==> (f.location == p.location && PropertyIssue(o, n, f.issue)) || exists i: nat :: FoundAt(p, Property(i), f)
  {
    var o, n := p.previous.fields, p.current.fields;
    var x, y := Get(o, "properties"), Get(n, "properties");
    PropertyTurns(p, f);
    if Properties(o).Obj? && Properties(n).Obj? && Has(o, "properties") {
      ListedProperties(x, Properties(n), p.location, f);
      assert !Has(n, "properties") ==> forall i: nat :: PropertyPair(x, Properties(n), i, p.location).None?;
    }
    hide FoundAt, Find, SchemaFindings, PropertyFindings;
  }

  lemma PropertyTurns(p: Pair, f: Finding)
    requires IsCompared(p)
    ensures forall i: nat :: FoundAt(p, Property(i), f) <==>
              InPair(PropertyPair(Get(p.previous.fields, "properties"), Get(p.current.fields, "properties"), i, p.location), f)
  {
    hide Find, Get, Same, PropertyPair, SchemaFindings;
  }

  lemma ItemsMembers(p: Pair, f: Finding)
    requires IsCompared(p)
    ensures f in ItemsFindings(p.previous.fields, p.current.fields, p.location) <==> FoundAt(p, Items, f)
  {
    hide Same, SchemaFindings;
  }

  ghost predicate InAlternative(x: Json, i: nat, y: seq<Json>, keyword: string, location: string, f: Finding) {
    x.Arr? && i < |x.items| && f in AlternativeFinding(x, i, y, keyword, location)
  }

  ghost predicate FromAlternative(x: Json, k: nat, y: seq<Json>, keyword: string, location: string, f: Finding) {
    exists i: nat :: k <= i && InAlternative(x, i, y, keyword, location, f)
  }

  lemma {:induction false} AlternativeMembers(x: Json, k: nat, y: seq<Json>, keyword: string, location: string, f: Finding)
    requires x.Arr? && k <= |x.items|
    ensures f in AlternativeFindings(x, k, y, keyword, location) <==> FromAlternative(x, k, y, keyword, location, f)
    decreases |x.items| - k
  {
    AlternativesStep(x, k, y, keyword, location, f);
    FromStep(x, k, y, keyword, location, f);
    hide AlternativeFindings, InAlternative, FromAlternative;
    if k < |x.items| {
      AlternativeMembers(x, k + 1, y, keyword, location, f);
    }
  }

  lemma FromStep(x: Json, k: nat, y: seq<Json>, keyword: string, location: string, f: Finding)
    ensures FromAlternative(x, k, y, keyword, location, f)
            <==> InAlternative(x, k, y, keyword, location, f) || FromAlternative(x, k + 1, y, keyword, location, f)
    ensures FromAlternative(x, k, y, keyword, location, f) ==> x.Arr? && k < |x.items|
  {
    hide AlternativeFinding;
    if FromAlternative(x, k, y, keyword, location, f) {
      var i: nat :| k <= i && InAlternative(x, i, y, keyword, location, f);
      assert i == k || k + 1 <= i;
    }
  }

  lemma AlternativesStep(x: Json, k: nat, y: seq<Json>, keyword: string, location: string, f: Finding)
    requires x.Arr? && k <= |x.items|
    ensures f in AlternativeFindings(x, k, y, keyword, location)
            <==> k < |x.items|
                 && (InAlternative(x, k, y, keyword, location, f) || f in AlternativeFindings(x, k + 1, y, keyword, location))
  {
    hide AlternativeFinding;
  }

  lemma OneAlternative(x: Json, y: Json, i: nat, keyword: string, location: string, f: Finding)
    requires x.Arr? && y.Arr? && i < |x.items|
    ensures InAlternative(x, i, y.items, keyword, location, f)
            <==> InPair(AlternativePair(x, y, i, location + "." + keyword), f)
                 || (Partner(Identities(x.items), i, Identities(y.items)).None?
                     && f == Finding(location, RemovedAlternative(keyword, Identities(x.items)[i])))
  {
    hide SchemaFindings, Identity, Partner;
    assert Identities(x.items)[i] == Identity(x.items[i]);
    match Partner(Identities(x.items), i, Identities(y.items)) {
      case None =>
        assert AlternativeFinding(x, i, y.items, keyword, location) == [Finding(location, RemovedAlternative(keyword, Identity(x.items[i])))];
      case Some(q) =>
        assert AlternativeFinding(x, i, y.items, keyword, location)
               == SchemaFindings(x.items[i], y.items[q], AlternativeLocation(location, keyword, i));
    }
  }

  // Some old alternative of this identity is left without a partner exactly when there are more old than new ones.
  lemma {:induction false} UnmatchedOne(a: seq<string>, n: nat, b: seq<string>, id: string)
    requires n <= |a|
    ensures Unmatched(a, n, b, id) > 0 <==> exists i :: 0 <= i < n && a[i] == id && Partner(a, i, b).None?
  {
    hide Partner;
    if n > 0 {
      UnmatchedOne(a, n - 1, b, id);
    }
  }

  lemma SomeUnmatched(a: seq<string>, b: seq<string>, id: string)
    ensures Count(a, id) > Count(b, id) <==> exists i :: 0 <= i < |a| && a[i] == id && Partner(a, i, b).None?
  {
    hide Partner, Count, Unmatched;
    UnmatchedOne(a, |a|, b, id);
    UnmatchedIsSurplus(a, |a|, b, id);
    assert a[..|a|] == a;
  }

  ghost predicate SomeAlternative(x: Json, y: Json, place: string, f: Finding) {
    exists i: nat :: InPair(AlternativePair(x, y, i, place), f)
  }

  lemma ListedAlternatives(x: Json, y: Json, keyword: string, location: string, f: Finding)
    requires x.Arr? && y.Arr?
    ensures f in AlternativeFindings(x, 0, y.items, keyword, location)
            <==> SomeAlternative(x, y, location + "." + keyword, f)
                 || (f.location == location && f.issue.RemovedAlternative? && f.issue.keyword == keyword
                     && Count(Identities(x.items), f.issue.identity) > Count(Identities(y.items), f.issue.identity))
  {
    AlternativeMembers(x, 0, y.items, keyword, location, f);
    AlternativeBounds(x, y, keyword, location, f);
    hide AlternativeFindings, AlternativePair, InAlternative, Partner, Count, SchemaFindings, Identities;
    var a, b := Identities(x.items), Identities(y.items);
    forall i: nat | i < |x.items| {
      OneAlternative(x, y, i, keyword, location, f);
    }
    if f.issue.RemovedAlternative? {
      SomeUnmatched(a, b, f.issue.identity);
    }
  }

  lemma AlternativeBounds(x: Json, y: Json, keyword: string, location: string, f: Finding)
    requires x.Arr? && y.Arr?
    ensures forall i: nat :: InPair(AlternativePair(x, y, i, location + "." + keyword), f) ==> i < |x.items|
    ensures forall i: nat :: InAlternative(x, i, y.items, keyword, location, f) ==> i < |x.items|
    ensures |Identities(x.items)| == |x.items|
  {
    hide SchemaFindings, Partner;
  }

  lemma AlternativeTurns(p: Pair, keyword: string, f: Finding)
    requires IsCompared(p) && keyword in {"anyOf", "oneOf"}
    ensures (exists i: nat :: FoundAt(p, Alternative(keyword, i), f))
            <==> SomeAlternative(Get(p.previous.fields, keyword), Get(p.current.fields, keyword), p.location + "." + keyword, f)
    ensures !(Get(p.previous.fields, keyword).Arr? && Get(p.current.fields, keyword).Arr?) ==>
              !SomeAlternative(Get(p.previous.fields, keyword), Get(p.current.fields, keyword), p.location + "." + keyword, f)
  {
    hide Find, Get, Same, SchemaFindings, Partner;
    var x, y, place := Get(p.previous.fields, keyword), Get(p.current.fields, keyword), p.location + "." + keyword;
    assert forall i: nat :: Subpair(p, Alternative(keyword, i)) == AlternativePair(x, y, i, place);
    if i: nat :| FoundAt(p, Alternative(keyword, i), f) {
      assert InPair(AlternativePair(x, y, i, place), f);
    }
    if i: nat :| InPair(AlternativePair(x, y, i, place), f) {
      assert FoundAt(p, Alternative(keyword, i), f);
    }
  }

  lemma AlternativesMembers(p: Pair, keyword: string, f: Finding)
    requires IsCompared(p) && keyword in {"anyOf", "oneOf"}
    ensures var o, n := p.previous.fields, p.current.fields;
            f in AlternativesFindings(o, n, keyword, p.location)
            <==> (f.location == p.location && AlternativesIssue(keyword, Get(o, keyword), Get(n, keyword), f.issue))
                 || exists i: nat :: FoundAt(p, Alternative(keyword, i), f)
  {
    var x, y := Get(p.previous.fields, keyword), Get(p.current.fields, keyword);
    AlternativeTurns(p, keyword, f);
    if x.Arr? && y.Arr? {
      ListedAlternatives(x, y, keyword, p.location, f);
    }
    hide Find, Get, Same, FoundAt, SomeAlternative, SchemaFindings, AlternativeFindings, Count, Identities;
  }

  lemma AdditionalMembers(p: Pair, f: Finding)
    requires IsCompared(p)
    ensures var o, n := p.previous.fields, p.current.fields;
            f in AdditionalFindings(o, n, p.location)
            <==> (f.location == p.location && AdditionalIssue(o, n, f.issue)) || FoundAt(p, Extra, f)
  {
    var x, y := Additional(p.previous.fields), Additional(p.current.fields);
    AbsentAdditional(p.previous.fields);
    AbsentAdditional(p.current.fields);
    ExtraTurn(p, f);
    hide Same, SchemaFindings, Find, Get, Additional, FoundAt, IsRequired, Count, Identities;
  }

  lemma ExtraTurn(p: Pair, f: Finding)
    requires IsCompared(p)
    ensures var x, y := Get(p.previous.fields, "additionalProperties"), Get(p.current.fields, "additionalProperties");
            FoundAt(p, Extra, f) <==> x.Obj? && y.Obj? && f in SchemaFindings(x, y, p.location + ".additionalProperties")
  {
    hide Same, SchemaFindings, Find, Get, PropertyPair, AlternativePair;
  }

  lemma AbsentAdditional(s: seq<Field>)
    ensures Get(s, "additionalProperties").Obj? <==> Additional(s).Obj?
    ensures Get(s, "additionalProperties") == Bool(false) <==> Additional(s) == Bool(false)
    ensures Get(s, "additionalProperties").Obj? ==> Get(s, "additionalProperties") == Additional(s)
  {
  }

  lemma NestedMembers(p: Pair, f: Finding)
    requires IsCompared(p)
    ensures f in NestedFindings(p.previous, p.current, p.location)
            <==> (f.location == p.location && SubschemaIssue(p.previous.fields, p.current.fields, f.issue))
                 || exists turn :: FoundAt(p, turn, f)
  {
    PropertiesMembers(p, f);
    ItemsMembers(p, f);
    AlternativesMembers(p, "anyOf", f);
    AlternativesMembers(p, "oneOf", f);
    AdditionalMembers(p, f);
    TurnKinds(p, f);
    EveryTurn(p, f);
    hide PropertiesFindings, ItemsFindings, AlternativesFindings, AdditionalFindings, FoundAt, PropertyIssue, AlternativesIssue,
      AdditionalIssue, Find, Get, Same;
  }

  lemma EveryTurn(p: Pair, f: Finding)
    requires forall keyword, i: nat :: FoundAt(p, Alternative(keyword, i), f) ==> keyword == "anyOf" || keyword == "oneOf"
    ensures (exists turn :: FoundAt(p, turn, f))
            <==> (exists i: nat :: FoundAt(p, Property(i), f)) || FoundAt(p, Items, f) || FoundAt(p, Extra, f)
                 || (exists i: nat :: FoundAt(p, Alternative("anyOf", i), f)) || exists i: nat :: FoundAt(p, Alternative("oneOf", i), f)
  {
    hide FoundAt;
    if turn :| FoundAt(p, turn, f) {
      match turn {
        case Property(i) =>
        case Items =>
        case Alternative(keyword, i) =>
        case Extra =>
      }
    }
  }

  lemma TurnKinds(p: Pair, f: Finding)
    ensures forall keyword, i: nat :: FoundAt(p, Alternative(keyword, i), f) ==> keyword == "anyOf" || keyword == "oneOf"
  {
    hide Find, Get, Same, SchemaFindings, AlternativePair;
  }

  lemma OneLevel(p: Pair, f: Finding)
    ensures f in Findings(p)
            <==> (f.location == p.location && HasIssue(p.previous, p.current, f.issue)) || exists turn :: FoundAt(p, turn, f)
  {
    if IsCompared(p) {
      NestedMembers(p, f);
      KeywordMembers(p.previous.fields, p.current.fields, p.location, f);
      hide KeywordFindings, NestedFindings, KeywordIssue, SubschemaIssue, Find, Get, Same, FoundAt;
    } else {
      assert forall turn :: Subpair(p, turn).None?;
      hide Find, Get, Same, Subpair;
    }
  }

  // ---------- the whole walk ----------

  lemma {:induction false} ReportedIsReached(p: Pair, f: Finding) returns (turns: seq<Turn>)
    requires f in Findings(p)
    ensures Reports(p, turns, f)
    decreases p.previous
  {
    OneLevel(p, f);
    hide HasIssue, SchemaFindings, Subpair;
    if f.location == p.location && HasIssue(p.previous, p.current, f.issue) {
      turns := [];
    } else {
      var turn :| FoundAt(p, turn, f);
      var q := Subpair(p, turn).value;
      var rest := ReportedIsReached(q, f);
      turns := [turn] + rest;
      assert turns[1..] == rest;
    }
  }

  lemma {:induction false} ReachedIsReported(p: Pair, turns: seq<Turn>, f: Finding)
    requires Reports(p, turns, f)
    ensures f in Findings(p)
    decreases |turns|
  {
    OneLevel(p, f);
    hide HasIssue, SchemaFindings, Subpair;
    if turns != [] {
      ReachedIsReported(Subpair(p, turns[0]).value, turns[1..], f);
      assert FoundAt(p, turns[0], f);
    }
  }

  /** The report on two schemas is, as a set, exactly the issues of all pairs that are reached, each at its location. */
  lemma ReportIsExact(previous: Json, current: Json, location: string, f: Finding)
    ensures f in SchemaFindings(previous, current, location) <==> exists turns :: Reports(Pair(previous, current, location), turns, f)
  {
    var p := Pair(previous, current, location);
    hide SchemaFindings, Reports;
    if f in SchemaFindings(previous, current, location) {
      var turns := ReportedIsReached(p, f);
    }
    if turns :| Reports(p, turns, f) {
      ReachedIsReported(p, turns, f);
    }
  }

  // Every turn leads to a longer location.
  lemma {:induction false} ReachedBelow(p: Pair, turns: seq<Turn>)
    requires turns != [] && Reached(p, turns).Some?
    ensures |Reached(p, turns).value.location| > |p.location|
    decreases |turns|
  {
    TurnBelow(p, turns[0]);
    hide Subpair;
    if |turns| > 1 {
      ReachedBelow(Subpair(p, turns[0]).value, turns[1..]);
    } else {
      assert turns[1..] == [];
    }
  }

  lemma TurnBelow(p: Pair, turn: Turn)
    ensures Subpair(p, turn).Some? ==> |Subpair(p, turn).value.location| > |p.location|
  {
    hide Find, Get, Same, Identities, Partner;
  }

  /**
   * At its own location a pair is reported for its own issues and no others; a limit among the ten keywords,
   * say, is reported exactly when it is new or tighter.
   */
  lemma OwnIssues(previous: Json, current: Json, location: string, issue: Issue)
    ensures Finding(location, issue) in SchemaFindings(previous, current, location) <==> HasIssue(previous, current, issue)
  {
    var p, f := Pair(previous, current, location), Finding(location, issue);
    ReportIsExact(previous, current, location, f);
    hide SchemaFindings, HasIssue, Subpair;
    if turns :| Reports(p, turns, f) && turns != [] {
      ReachedBelow(p, turns);
    }
    assert HasIssue(previous, current, issue) ==> Reports(p, [], f);
  }

  // ---------- which alternatives are taken for the same ----------

  predicate IsReference(v: Json) { v.Obj? && Get(v.fields, "$ref").Str? }

  predicate IsTyped(v: Json) { v.Obj? && !IsReference(v) && Get(v.fields, "type").Str? }

  function LabelText(v: Json): string {
    if IsReference(v) then Get(v.fields, "$ref").s else if IsTyped(v) then Get(v.fields, "type").s else ""
  }

  // No dump starts like the other two forms.
  lemma DumpStart(v: Json, tail: string)
    requires v.Num? ==> IsNumberText(v.text)
    ensures Dumps(v, DEFAULT) != "ref:" + tail && Dumps(v, DEFAULT) != "type:" + tail
  {
    var d := Dumps(v, DEFAULT);
    match v {
      case Null => assert d[0] == 'n';
      case Bool(b) => assert d[0] == 'f' || d[1] == 'r';
      case Num(_, text) =>
        NumberChars(text);
        assert d[0] == '-' || IsDigit(d[0]);
      case Str(s) => assert d[0] == '"';
      case Arr(_) => assert d[0] == '[';
      case Obj(_) => assert d[0] == '{';
    }
    assert ("ref:" + tail)[0] == 'r' && ("type:" + tail)[0] == 't' && ("type:" + tail)[1] == 'y';
  }

  /** Alternatives are taken for the same exactly when they are the same reference, or have the same type, or print alike. */
  lemma SameIdentity(a: Json, b: Json)
    requires (a.Num? ==> IsNumberText(a.text)) && (b.Num? ==> IsNumberText(b.text))
    ensures Identity(a) == Identity(b) <==>
              if IsReference(a) || IsReference(b) then IsReference(a) && IsReference(b) && Get(a.fields, "$ref") == Get(b.fields, "$ref")
              else if IsTyped(a) || IsTyped(b) then IsTyped(a) && IsTyped(b) && Get(a.fields, "type") == Get(b.fields, "type")
              else Dumps(a, DEFAULT) == Dumps(b, DEFAULT)
  {
    DumpStart(a, LabelText(b));
    DumpStart(b, LabelText(a));
    hide Find, Get, Dumps, IsNumberText;
    Labels();
  }

  lemma Labels()
    ensures forall x, y :: "ref:" + x != "type:" + y
    ensures forall x, y :: "ref:" + x == "ref:" + y ==> x == y
    ensures forall x, y :: "type:" + x == "type:" + y ==> x == y
  {
    forall x, y ensures "ref:" + x != "type:" + y {
      assert ("ref:" + x)[0] == 'r' && ("type:" + y)[0] == 't';
    }
    forall x, y | "ref:" + x == "ref:" + y ensures x == y {
      assert ("ref:" + x)[4..] == x && ("ref:" + y)[4..] == y;
    }
    forall x, y | "type:" + x == "type:" + y ensures x == y {
      assert ("type:" + x)[5..] == x && ("type:" + y)[5..] == y;
    }
  }
}
