/**
 * The findings of one schema comparison, in the order in which the comparer reports them,
 * and the relation "no findings" stated on its own.
 */
module SchemaContract {
  import opened Wrappers
  import opened Json
  import opened AlternativeMatching
  import Decimal

  datatype Issue =
    | ChangedShape
    | ChangedReference
    | ChangedType(oldType: Json, newType: Json)
    | ChangedKey(key: string)
    | AddedKey(key: string)
    | AddedEnum
    | NarrowedEnum(removed: seq<Json>)
    | AddedLimit(key: string, limit: Json)
    | TightenedLimit(key: string, oldLimit: Json, newLimit: Json)
    | ChangedPattern
    | AddedRequired(names: set<string>)
    | RemovedProperty(name: string)
    | AddedAlternatives(keyword: string)
    | ChangedAlternatives(keyword: string)
    | RemovedAlternative(keyword: string, identity: string)
    | ForbadeAdditional
    | ConstrainedAdditional
    // findings about documents and operations
    | ChangedSecurity
    | RemovedPath(path: string)
    | RemovedOperation(verb: string, path: string)
    | RemovedParameter(position: string, name: string)
    | RequiredParameter(position: string, name: string)
    | AddedRequiredParameter(position: string, name: string)
    | AddedRequiredBody
    | RemovedBody
    | RequiredBody
    | RemovedMediaType(mediaType: string)
    | RemovedResponse(status: string)
    | RemovedSchema(name: string)
    | RemovedSecurityScheme(name: string)
    | ChangedSecurityScheme(name: string)

  datatype Finding = Finding(location: string, issue: Issue)

  const UPPER_LIMITS := ["maximum", "exclusiveMaximum", "maxLength", "maxItems", "maxProperties"]
  const LOWER_LIMITS := ["minimum", "exclusiveMinimum", "minLength", "minItems", "minProperties"]

  function ReportIf(condition: bool, location: string, issue: Issue): seq<Finding> {
    if condition then [Finding(location, issue)] else []
  }

  // How an alternative is recognised: by reference, by type, or by its whole dump.
  function Identity(value: Json): string {
    if value.Obj? && Get(value.fields, "$ref").Str? then "ref:" + Get(value.fields, "$ref").s
    else if value.Obj? && Get(value.fields, "type").Str? then "type:" + Get(value.fields, "type").s
    else Dumps(value, DEFAULT)
  }

  function Identities(values: seq<Json>): (ids: seq<string>)
    ensures |ids| == |values| && forall i :: 0 <= i < |values| ==> ids[i] == Identity(values[i])
  {
    seq(|values|, i requires 0 <= i < |values| => Identity(values[i]))
  }

  // ---------- conditions of the individual keywords ----------

  predicate ReferenceKept(o: seq<Field>, n: seq<Field>) { PyEq(Get(o, "$ref"), Get(n, "$ref")) }

  predicate TypeKept(o: seq<Field>, n: seq<Field>) {
    Get(o, "type") == Null || PyEq(Get(o, "type"), Get(n, "type"))
  }

  predicate KeyKept(o: seq<Field>, n: seq<Field>, key: string) {
    if Has(o, key) then PyEq(Get(o, key), Get(n, key)) else !Has(n, key)
  }

  function RemovedItems(previous: seq<Json>, current: seq<Json>): (r: seq<Json>)
    ensures r == [] <==> forall i :: 0 <= i < |previous| ==> PyIn(previous[i], current)
  {
    if previous == [] then []
    else
      var rest := RemovedItems(previous[1..], current);
      assert forall i :: 1 <= i < |previous| ==> previous[i] == previous[1..][i - 1];
      if PyIn(previous[0], current) then rest else [previous[0]] + rest
  }

  predicate EnumKept(o: seq<Field>, n: seq<Field>) {
    var previous, current := Get(o, "enum"), Get(n, "enum");
    && (previous == Null ==> !current.Arr?)
    && (previous.Arr? && current.Arr? ==> forall i :: 0 <= i < |previous.items| ==> PyIn(previous.items[i], current.items))
  }

  predicate UpperKept(o: seq<Field>, n: seq<Field>, key: string) {
    var previous, current := Get(o, key), Get(n, key);
    && (previous == Null ==> !IsNumber(current))
    && (IsNumber(previous) && IsNumber(current) ==> NumberOf(previous) <= NumberOf(current))
  }

  predicate LowerKept(o: seq<Field>, n: seq<Field>, key: string) {
    var previous, current := Get(o, key), Get(n, key);
    && (previous == Null ==> !IsNumber(current))
    && (IsNumber(previous) && IsNumber(current) ==> NumberOf(current) <= NumberOf(previous))
  }

  predicate PatternKept(o: seq<Field>, n: seq<Field>) { PyEq(Get(o, "pattern"), Get(n, "pattern")) }

  // The property names of a `required` list; an absent list is empty.
  function RequiredNames(fields: seq<Field>): set<string> {
    var required := Get(fields, "required");
    if required.Arr? then set i | 0 <= i < |required.items| && required.items[i].Str? :: required.items[i].s else {}
  }

  // A key whose default is an empty list or an empty object when it is absent.
  predicate ArrayOrAbsent(fields: seq<Field>, key: string) { Has(fields, key) ==> Get(fields, key).Arr? }

  predicate ObjectOrAbsent(fields: seq<Field>, key: string) { Has(fields, key) ==> Get(fields, key).Obj? }

  predicate RequiredKept(o: seq<Field>, n: seq<Field>) {
    ArrayOrAbsent(o, "required") && ArrayOrAbsent(n, "required") ==> RequiredNames(n) <= RequiredNames(o)
  }

  // previous.get("properties", {})
  function Properties(fields: seq<Field>): (r: Json)
    ensures r.Obj? && r != Obj([]) ==> r < Obj(fields)
  {
    match Find(fields, "properties")
    case Some(p) => p
    case None => Obj([])
  }

  // previous.get("additionalProperties", True)
  function Additional(fields: seq<Field>): (r: Json)
    ensures r.Obj? ==> r < Obj(fields)
  {
    match Find(fields, "additionalProperties")
    case Some(a) => a
    case None => Bool(true)
  }

  // ---------- findings ----------

  function SchemaFindings(previous: Json, current: Json, location: string): seq<Finding>
    decreases previous, 1, 0
  {
    if !previous.Obj? || !current.Obj? then ReportIf(!PyEq(previous, current), location, ChangedShape)
    else
      var o, n := previous.fields, current.fields;
      if !ReferenceKept(o, n) then [Finding(location, ChangedReference)]
      else
        KeywordFindings(o, n, location)
        + NestedFindings(previous, current, location)
  }

  function KeywordFindings(o: seq<Field>, n: seq<Field>, location: string): seq<Finding> {
    ReportIf(!TypeKept(o, n), location, ChangedType(Get(o, "type"), Get(n, "type")))
    + KeyFindings(o, n, "format", location)
    + KeyFindings(o, n, "const", location)
    + EnumFindings(o, n, location)
    + LimitFindings(o, n, location)
    + RequiredFindings(o, n, location)
  }

  function KeyFindings(o: seq<Field>, n: seq<Field>, key: string, location: string): seq<Finding> {
    ReportIf(!KeyKept(o, n, key), location, if Has(o, key) then ChangedKey(key) else AddedKey(key))
  }

  function EnumFindings(o: seq<Field>, n: seq<Field>, location: string): seq<Finding> {
    var previous, current := Get(o, "enum"), Get(n, "enum");
    if previous == Null then ReportIf(current.Arr?, location, AddedEnum)
    else if previous.Arr? && current.Arr? then
      var removed := RemovedItems(previous.items, current.items);
      ReportIf(removed != [], location, NarrowedEnum(removed))
    else []
  }

  function LimitFinding(o: seq<Field>, n: seq<Field>, key: string, kept: bool, location: string): (r: seq<Finding>)
    ensures r == [] <==> kept
  {
    var previous, current := Get(o, key), Get(n, key);
    ReportIf(!kept, location, if previous == Null then AddedLimit(key, current) else TightenedLimit(key, previous, current))
  }

  function UpperFindings(o: seq<Field>, n: seq<Field>, keys: seq<string>, k: nat, location: string): seq<Finding>
    requires k <= |keys|
    decreases |keys| - k
  {
    if k == |keys| then []
    else
      LimitFinding(o, n, keys[k], UpperKept(o, n, keys[k]), location)
      + UpperFindings(o, n, keys, k + 1, location)
  }

  function LowerFindings(o: seq<Field>, n: seq<Field>, keys: seq<string>, k: nat, location: string): seq<Finding>
    requires k <= |keys|
    decreases |keys| - k
  {
    if k == |keys| then []
    else
      LimitFinding(o, n, keys[k], LowerKept(o, n, keys[k]), location)
      + LowerFindings(o, n, keys, k + 1, location)
  }

  function LimitFindings(o: seq<Field>, n: seq<Field>, location: string): seq<Finding> {
    UpperFindings(o, n, UPPER_LIMITS, 0, location)
    + LowerFindings(o, n, LOWER_LIMITS, 0, location)
    + ReportIf(!PatternKept(o, n), location, ChangedPattern)
  }

  function RequiredFindings(o: seq<Field>, n: seq<Field>, location: string): seq<Finding> {
    ReportIf(!RequiredKept(o, n), location, AddedRequired(RequiredNames(n) - RequiredNames(o)))
  }

  function NestedFindings(previous: Json, current: Json, location: string): seq<Finding>
    requires previous.Obj? && current.Obj?
    decreases previous, 0, 1
  {
    var o, n := previous.fields, current.fields;
    PropertiesFindings(o, n, location)
    + ItemsFindings(o, n, location)
    + AlternativesFindings(o, n, "anyOf", location)
    + AlternativesFindings(o, n, "oneOf", location)
    + AdditionalFindings(o, n, location)
  }

  function PropertiesFindings(o: seq<Field>, n: seq<Field>, location: string): seq<Finding>
    decreases Obj(o), 0, 0
  {
    var props, others := Properties(o), Properties(n);
    if props.Obj? && others.Obj? && props != Obj([]) then PropertyFindings(props, 0, others.fields, location) else []
  }

  function ItemsFindings(o: seq<Field>, n: seq<Field>, location: string): seq<Finding>
    decreases Obj(o), 0, 0
  {
    if Has(o, "items") && Has(n, "items")
    then SchemaFindings(Find(o, "items").value, Find(n, "items").value, location + ".items")
    else []
  }

  function PropertyFindings(props: Json, k: nat, others: seq<Field>, location: string): seq<Finding>
    requires props.Obj? && k <= |props.fields|
    decreases props, 2, |props.fields| - k
  {
    if k == |props.fields| then []
    else
      PropertyFinding(props.fields[k], others, location) + PropertyFindings(props, k + 1, others, location)
  }

  function PropertyFinding(f: Field, others: seq<Field>, location: string): seq<Finding>
    decreases f, 0, 0
  {
    match Find(others, f.name)
    case None => [Finding(location, RemovedProperty(f.name))]
    case Some(p) => SchemaFindings(f.value, p, location + "." + f.name)
  }

  function AlternativesFindings(o: seq<Field>, n: seq<Field>, keyword: string, location: string): seq<Finding>
    decreases Obj(o), 0, 0
  {
    var previous, current := Get(o, keyword), Get(n, keyword);
    if previous == Null then ReportIf(current.Arr?, location, AddedAlternatives(keyword))
    else if !previous.Arr? || !current.Arr? then [Finding(location, ChangedAlternatives(keyword))]
    else AlternativeFindings(previous, 0, current.items, keyword, location)
  }

  function AlternativeFindings(previous: Json, k: nat, current: seq<Json>, keyword: string, location: string): seq<Finding>
    requires previous.Arr? && k <= |previous.items|
    decreases previous, 2, |previous.items| - k
  {
    if k == |previous.items| then []
    else
      AlternativeFinding(previous, k, current, keyword, location)
      + AlternativeFindings(previous, k + 1, current, keyword, location)
  }

  function AlternativeFinding(previous: Json, k: nat, current: seq<Json>, keyword: string, location: string): seq<Finding>
    requires previous.Arr? && k < |previous.items|
    decreases previous, 1, 0
  {
    match Partner(Identities(previous.items), k, Identities(current))
    case None => [Finding(location, RemovedAlternative(keyword, Identity(previous.items[k])))]
    case Some(p) => SchemaFindings(previous.items[k], current[p], AlternativeLocation(location, keyword, k))
  }

  function AlternativeLocation(location: string, keyword: string, k: nat): string {
    location + "." + keyword + "[" + Decimal.Digits(k) + "]"
  }

  function AdditionalFindings(o: seq<Field>, n: seq<Field>, location: string): seq<Finding>
    decreases Obj(o), 0, 0
  {
    var previous, current := Additional(o), Additional(n);
    if previous != Bool(false) && current == Bool(false) then [Finding(location, ForbadeAdditional)]
    else if !previous.Obj? && current.Obj? then [Finding(location, ConstrainedAdditional)]
    else if previous.Obj? && current.Obj? then SchemaFindings(previous, current, location + ".additionalProperties")
    else []
  }

  // ---------- no findings, stated without locations or lists ----------

  ghost predicate KeywordsKept(o: seq<Field>, n: seq<Field>) {
    && TypeKept(o, n)
    && KeyKept(o, n, "format")
    && KeyKept(o, n, "const")
    && EnumKept(o, n)
    && (forall k :: 0 <= k < |UPPER_LIMITS| ==> UpperKept(o, n, UPPER_LIMITS[k]))
    && (forall k :: 0 <= k < |LOWER_LIMITS| ==> LowerKept(o, n, LOWER_LIMITS[k]))
    && PatternKept(o, n)
    && RequiredKept(o, n)
  }

  ghost predicate Compatible(previous: Json, current: Json)
    decreases previous, 1
  {
    if previous.Obj? && current.Obj? then
      && ReferenceKept(previous.fields, current.fields)
      && KeywordsKept(previous.fields, current.fields)
      && PropertiesCompatible(previous.fields, current.fields)
      && ItemsCompatible(previous.fields, current.fields)
      && AlternativesCompatible(previous.fields, current.fields, "anyOf")
      && AlternativesCompatible(previous.fields, current.fields, "oneOf")
      && AdditionalCompatible(previous.fields, current.fields)
    else PyEq(previous, current)
  }

  ghost predicate PropertiesCompatible(o: seq<Field>, n: seq<Field>)
    decreases Obj(o), 0
  {
    var previous, current := Properties(o), Properties(n);
    previous.Obj? && current.Obj? && previous != Obj([]) ==>
      forall i :: 0 <= i < |previous.fields| ==>
        var p := Find(current.fields, previous.fields[i].name);
        p.Some? && Compatible(previous.fields[i].value, p.value)
  }

  ghost predicate ItemsCompatible(o: seq<Field>, n: seq<Field>)
    decreases Obj(o), 0
  {
    Has(o, "items") && Has(n, "items") ==> Compatible(Find(o, "items").value, Find(n, "items").value)
  }

  ghost predicate AlternativesCompatible(o: seq<Field>, n: seq<Field>, keyword: string)
    decreases Obj(o), 0
  {
    var previous, current := Get(o, keyword), Get(n, keyword);
    if previous == Null then !current.Arr?
    else
      && previous.Arr? && current.Arr?
      && AllAlternativesCompatible(previous, 0, current.items)
  }

  ghost predicate AllAlternativesCompatible(previous: Json, k: nat, current: seq<Json>)
    requires previous.Arr? && k <= |previous.items|
    decreases previous, 3
  {
    forall i :: k <= i < |previous.items| ==> AlternativeCompatible(previous, i, current)
  }

  ghost predicate AlternativeCompatible(previous: Json, i: nat, current: seq<Json>)
    requires previous.Arr? && i < |previous.items|
    decreases previous, 2
  {
    var p := Partner(Identities(previous.items), i, Identities(current));
    p.Some? && Compatible(previous.items[i], current[p.value])
  }

  ghost predicate AdditionalCompatible(o: seq<Field>, n: seq<Field>)
    decreases Obj(o), 0
  {
    var previous, current := Additional(o), Additional(n);
    && (current == Bool(false) ==> previous == Bool(false))
    && (current.Obj? ==> previous.Obj? && Compatible(previous, current))
  }
}
