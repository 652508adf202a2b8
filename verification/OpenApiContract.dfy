/** Comparing two OpenAPI documents: paths, operations, parameters, bodies, responses, components. */
module OpenApiContract {
  import opened Wrappers
  import opened Json
  import opened Sorting
  import opened SchemaContract
  import opened SchemaComparer

  datatype Parameter = Parameter(position: string, name: string, required: bool, schema: Json)

  // Contents are listed as fields: media type and schema, {} when the schema is absent.
  datatype Body = Body(required: bool, content: seq<Field>)

  datatype Response = Response(status: string, content: seq<Field>)

  datatype Operation = Operation(verb: string, security: Option<Json>, parameters: seq<Parameter>,
                                 body: Option<Body>, responses: seq<Response>)

  datatype PathItem = PathItem(path: string, parameters: seq<Parameter>, operations: seq<Operation>)

  datatype Document = Document(security: Option<Json>, paths: seq<PathItem>, schemas: seq<Field>, schemes: seq<Field>)

  const HTTP_METHODS := ["delete", "get", "head", "options", "patch", "post", "put", "trace"]

  // ---------- lookups ----------

  function FindPath(items: seq<PathItem>, path: string): (r: Option<PathItem>)
    ensures r.None? <==> forall i :: 0 <= i < |items| ==> items[i].path != path
    ensures r.Some? ==> r.value.path == path && r.value in items
  {
    if items == [] then None else if items[0].path == path then Some(items[0]) else FindPath(items[1..], path)
  }

  function FindOperation(operations: seq<Operation>, verb: string): (r: Option<Operation>)
    ensures r.None? <==> forall i :: 0 <= i < |operations| ==> operations[i].verb != verb
    ensures r.Some? ==> r.value.verb == verb && r.value in operations
  {
    if operations == [] then None
    else if operations[0].verb == verb then Some(operations[0]) else FindOperation(operations[1..], verb)
  }

  function FindParameter(parameters: seq<Parameter>, position: string, name: string): (r: Option<Parameter>)
    ensures r.None? <==> forall i :: 0 <= i < |parameters| ==> parameters[i].position != position || parameters[i].name != name
    ensures r.Some? ==> r.value.position == position && r.value.name == name && r.value in parameters
  {
    if parameters == [] then None
    else if parameters[0].position == position && parameters[0].name == name then Some(parameters[0])
    else FindParameter(parameters[1..], position, name)
  }

  function FindResponse(responses: seq<Response>, status: string): (r: Option<Response>)
    ensures r.None? <==> forall i :: 0 <= i < |responses| ==> responses[i].status != status
    ensures r.Some? ==> r.value.status == status && r.value in responses
  {
    if responses == [] then None
    else if responses[0].status == status then Some(responses[0]) else FindResponse(responses[1..], status)
  }

  // result[(position, name)] = parameter: a later one replaces the earlier one in its place.
  function PutParameter(result: seq<Parameter>, p: Parameter): (r: seq<Parameter>)
    ensures forall position, name ::
      FindParameter(r, position, name) ==
      if position == p.position && name == p.name then Some(p) else FindParameter(result, position, name)
  {
    if result == [] then [p]
    else if result[0].position == p.position && result[0].name == p.name then [p] + result[1..]
    else [result[0]] + PutParameter(result[1..], p)
  }

  function MergeParameters(listed: seq<Parameter>): (r: seq<Parameter>)
  {
    if listed == [] then []
    else PutParameter(MergeParameters(listed[..|listed| - 1]), listed[|listed| - 1])
  }

  // The last one listed with this place and name.
  function LastListed(listed: seq<Parameter>, position: string, name: string): Option<Parameter> {
    if listed == [] then None
    else
      var last := listed[|listed| - 1];
      if IsNamed(last, position, name) then Some(last) else LastListed(listed[..|listed| - 1], position, name)
  }

  predicate IsNamed(p: Parameter, position: string, name: string) { p.position == position && p.name == name }

  /** It is None when there is none, and otherwise one behind which there is no other. */
  lemma {:induction false} LastListedIsLast(listed: seq<Parameter>, position: string, name: string) returns (i: nat)
    ensures LastListed(listed, position, name).None? ==> forall j :: 0 <= j < |listed| ==> !IsNamed(listed[j], position, name)
    ensures LastListed(listed, position, name).Some? ==>
              && i < |listed| && listed[i] == LastListed(listed, position, name).value && IsNamed(listed[i], position, name)
              && forall j :: i < j < |listed| ==> !IsNamed(listed[j], position, name)
  {
    hide IsNamed;
    i := 0;
    if listed != [] {
      var n := |listed| - 1;
      if IsNamed(listed[n], position, name) {
        i := n;
      } else {
        i := LastListedIsLast(listed[..n], position, name);
        assert forall j :: 0 <= j < n ==> listed[..n][j] == listed[j];
      }
    }
  }

  /** What is found in the merged list is the last one listed. */
  lemma {:induction false} MergedFindsLast(listed: seq<Parameter>, position: string, name: string)
    ensures FindParameter(MergeParameters(listed), position, name) == LastListed(listed, position, name)
  {
    if listed != [] {
      MergedFindsLast(listed[..|listed| - 1], position, name);
    }
  }

  // ---------- findings ----------

  // One block of findings per element, in order.
  function Each<T>(xs: seq<T>, k: nat, f: T -> seq<Finding>): seq<Finding>
    requires k <= |xs|
    decreases |xs| - k
  {
    if k == |xs| then [] else f(xs[k]) + Each(xs, k + 1, f)
  }

  lemma {:induction false} EachSilent<T>(xs: seq<T>, k: nat, f: T -> seq<Finding>)
    requires k <= |xs|
    ensures Each(xs, k, f) == [] <==> forall i :: k <= i < |xs| ==> f(xs[i]) == []
    decreases |xs| - k
  {
    if k < |xs| {
      EachSilent(xs, k + 1, f);
    }
  }

  predicate SecurityKept(previous: Option<Json>, current: Option<Json>) {
    PyEq(if previous.Some? then previous.value else Null, if current.Some? then current.value else Null)
  }

  function ContentFindings(previous: seq<Field>, current: seq<Field>, location: string): seq<Finding> {
    Each(previous, 0, m => MediaFindings(m, current, location))
  }

  function MediaFindings(media: Field, current: seq<Field>, location: string): seq<Finding> {
    match Find(current, media.name)
    case None => [Finding(location, RemovedMediaType(media.name))]
    case Some(schema) => SchemaFindings(media.value, schema, location + " " + media.name)
  }

  function ParameterFindings(p: Parameter, current: seq<Parameter>, location: string): seq<Finding> {
    match FindParameter(current, p.position, p.name)
    case None => [Finding(location, RemovedParameter(p.position, p.name))]
    case Some(q) =>
      SchemaFindings(p.schema, q.schema, location + " parameter " + p.position + ":" + p.name)
      + ReportIf(!p.required && q.required, location, RequiredParameter(p.position, p.name))
  }

  function AddedParameterFindings(q: Parameter, previous: seq<Parameter>, location: string): seq<Finding> {
    ReportIf(FindParameter(previous, q.position, q.name).None? && q.required,
      location, AddedRequiredParameter(q.position, q.name))
  }

  function BodyFindings(previous: Option<Body>, current: Option<Body>, location: string): seq<Finding> {
    match (previous, current)
    case (None, None) => []
    case (None, Some(n)) => ReportIf(n.required, location, AddedRequiredBody)
    case (Some(_), None) => [Finding(location, RemovedBody)]
    case (Some(o), Some(n)) =>
      ReportIf(!o.required && n.required, location, RequiredBody)
      + ContentFindings(o.content, n.content, location + " request")
  }

  function ResponseFindings(r: Response, current: seq<Response>, location: string): seq<Finding> {
    match FindResponse(current, r.status)
    case None => [Finding(location, RemovedResponse(r.status))]
    case Some(n) => ContentFindings(r.content, n.content, location + " response " + r.status)
  }

  function Upper(s: string): string {
    if s == [] then [] else [if 'a' <= s[0] <= 'z' then s[0] - 'a' + 'A' else s[0]] + Upper(s[1..])
  }

  function OperationFindings(path: string, previous: Operation, current: Operation,
                             oldParameters: seq<Parameter>, newParameters: seq<Parameter>): seq<Finding> {
    var location := Upper(previous.verb) + " " + path;
    var o, n := MergeParameters(oldParameters + previous.parameters), MergeParameters(newParameters + current.parameters);
    ReportIf(!SecurityKept(previous.security, current.security), location, ChangedSecurity)
    + Each(o, 0, p => ParameterFindings(p, n, location))
    + Each(n, 0, q => AddedParameterFindings(q, o, location))
    + BodyFindings(previous.body, current.body, location)
    + Each(previous.responses, 0, r => ResponseFindings(r, current.responses, location))
  }

  function VerbFindings(verb: string, o: PathItem, n: PathItem): seq<Finding> {
    match (FindOperation(o.operations, verb), FindOperation(n.operations, verb))
    case (None, _) => []
    case (Some(_), None) => [Finding("", RemovedOperation(Upper(verb), o.path))]
    case (Some(x), Some(y)) => OperationFindings(o.path, x, y, o.parameters, n.parameters)
  }

  function PathFindings(o: PathItem, current: seq<PathItem>): seq<Finding> {
    match FindPath(current, o.path)
    case None => [Finding("", RemovedPath(o.path))]
    case Some(n) => Each(HTTP_METHODS, 0, verb => VerbFindings(verb, o, n))
  }

  function ComponentFindings(f: Field, current: seq<Field>): seq<Finding> {
    match Find(current, f.name)
    case None => [Finding("", RemovedSchema(f.name))]
    case Some(schema) => SchemaFindings(f.value, schema, "components.schemas." + f.name)
  }

  function SchemeFindings(f: Field, current: seq<Field>): seq<Finding> {
    match Find(current, f.name)
    case None => [Finding("", RemovedSecurityScheme(f.name))]
    case Some(scheme) => ReportIf(!PyEq(f.value, scheme), "", ChangedSecurityScheme(f.name))
  }

  function DocumentFindings(previous: Document, current: Document): seq<Finding> {
    ReportIf(!SecurityKept(previous.security, current.security), "", ChangedSecurity)
    + Each(SortBy(previous.paths, (o: PathItem) => o.path), 0, o => PathFindings(o, current.paths))
    + Each(SortBy(previous.schemas, (f: Field) => f.name), 0, f => ComponentFindings(f, current.schemas))
    + Each(SortBy(previous.schemes, (f: Field) => f.name), 0, f => SchemeFindings(f, current.schemes))
  }

  // tuple(dict.fromkeys(findings)): the first occurrence of each finding.
  function FirstOccurrences(findings: seq<Finding>): (r: seq<Finding>)
    ensures forall f :: f in r <==> f in findings
    ensures forall i, j :: 0 <= i < j < |r| ==> r[i] != r[j]
    ensures r == [] <==> findings == []
  {
    if findings == [] then []
    else
      var n := |findings| - 1;
      var r := FirstOccurrences(findings[..n]);
      assert findings == findings[..n] + [findings[n]];
      if findings[n] in findings[..n] then r else r + [findings[n]]
  }

  // ---------- the comparer ----------

  method BreakingChanges(previous: Document, current: Document) returns (report: seq<Finding>)
    ensures report == FirstOccurrences(DocumentFindings(previous, current))
    ensures report == [] <==> DocumentFindings(previous, current) == []
    ensures forall f :: f in report <==> f in DocumentFindings(previous, current)
    ensures forall i, j :: 0 <= i < j < |report| ==> report[i] != report[j]
  {
    hide SortBy, PathFindings, ComponentFindings, SchemeFindings, SecurityKept, FirstOccurrences, Each;
    var findings := new FindingLog();
    if !SecurityKept(previous.security, current.security) {
      findings.Append("", ChangedSecurity);
    }
    ghost var reported := findings.entries;
    var paths := SortBy(previous.paths, (o: PathItem) => o.path);
    ComparePaths(paths, current.paths, findings);
    reported := reported + Each(paths, 0, o => PathFindings(o, current.paths));
    var schemas := SortBy(previous.schemas, (f: Field) => f.name);
    CompareComponents(schemas, current.schemas, findings);
    reported := reported + Each(schemas, 0, f => ComponentFindings(f, current.schemas));
    var schemes := SortBy(previous.schemes, (f: Field) => f.name);
    CompareSchemes(schemes, current.schemes, findings);
    reported := reported + Each(schemes, 0, f => SchemeFindings(f, current.schemes));
    assert findings.entries == DocumentFindings(previous, current);
    report := FirstOccurrences(findings.entries);
  }

  method ComparePaths(paths: seq<PathItem>, current: seq<PathItem>, findings: FindingLog)
    modifies findings
    ensures findings.entries == old(findings.entries) + Each(paths, 0, o => PathFindings(o, current))
  {
    hide VerbFindings, FindPath;
    ghost var f := (o: PathItem) => PathFindings(o, current);
    for k := 0 to |paths|
      invariant old(findings.entries) + Each(paths, 0, f) == findings.entries + Each(paths, k, f)
    {
      var o := paths[k];
      Associative(findings.entries, f(o), Each(paths, k + 1, f));
      var n := FindPath(current, o.path);
      if n.None? {
        findings.Append("", RemovedPath(o.path));
      } else {
        CompareVerbs(o, n.value, findings);
      }
    }
  }

  method CompareVerbs(o: PathItem, n: PathItem, findings: FindingLog)
    modifies findings
    ensures findings.entries == old(findings.entries) + Each(HTTP_METHODS, 0, verb => VerbFindings(verb, o, n))
  {
    hide HTTP_METHODS, VerbFindings;
    ghost var f := verb => VerbFindings(verb, o, n);
    for k := 0 to |HTTP_METHODS|
      invariant old(findings.entries) + Each(HTTP_METHODS, 0, f) == findings.entries + Each(HTTP_METHODS, k, f)
    {
      var verb := HTTP_METHODS[k];
      Associative(findings.entries, f(verb), Each(HTTP_METHODS, k + 1, f));
      CompareVerb(verb, o, n, findings);
    }
  }

  method CompareVerb(verb: string, o: PathItem, n: PathItem, findings: FindingLog)
    modifies findings
    ensures findings.entries == old(findings.entries) + VerbFindings(verb, o, n)
  {
    hide OperationFindings, FindOperation, Upper;
    var x, y := FindOperation(o.operations, verb), FindOperation(n.operations, verb);
    if x.Some? {
      if y.None? {
        findings.Append("", RemovedOperation(Upper(verb), o.path));
      } else {
        CompareOperation(o.path, x.value, y.value, o.parameters, n.parameters, findings);
      }
    }
  }

  method CompareOperation(path: string, previous: Operation, current: Operation,
                          oldParameters: seq<Parameter>, newParameters: seq<Parameter>, findings: FindingLog)
    modifies findings
    ensures findings.entries == old(findings.entries) + OperationFindings(path, previous, current, oldParameters, newParameters)
  {
    hide SecurityKept, ParameterFindings, AddedParameterFindings, BodyFindings, ResponseFindings, Each, Upper;
    var location := Upper(previous.verb) + " " + path;
    ghost var before := findings.entries;
    if !SecurityKept(previous.security, current.security) {
      findings.Append(location, ChangedSecurity);
    }
    ghost var reported := ReportIf(!SecurityKept(previous.security, current.security), location, ChangedSecurity);
    var o := Merged(oldParameters + previous.parameters);
    var n := Merged(newParameters + current.parameters);
    CompareParameters(o, n, location, findings);
    Associative(before, reported, Each(o, 0, p => ParameterFindings(p, n, location)));
    reported := reported + Each(o, 0, p => ParameterFindings(p, n, location));
    CompareAddedParameters(n, o, location, findings);
    Associative(before, reported, Each(n, 0, q => AddedParameterFindings(q, o, location)));
    reported := reported + Each(n, 0, q => AddedParameterFindings(q, o, location));
    CompareBody(previous.body, current.body, location, findings);
    Associative(before, reported, BodyFindings(previous.body, current.body, location));
    reported := reported + BodyFindings(previous.body, current.body, location);
    CompareResponses(previous.responses, current.responses, location, findings);
    Associative(before, reported, Each(previous.responses, 0, r => ResponseFindings(r, current.responses, location)));
  }

  // The dictionary of parameters, filled in listing order.
  method Merged(listed: seq<Parameter>) returns (result: seq<Parameter>)
    ensures result == MergeParameters(listed)
    ensures forall position, name :: FindParameter(result, position, name) == LastListed(listed, position, name)
  {
    hide FindParameter, LastListed, PutParameter;
    result := [];
    for i := 0 to |listed|
      invariant result == MergeParameters(listed[..i])
    {
      assert listed[..i + 1][..i] == listed[..i];
      result := PutParameter(result, listed[i]);
    }
    assert listed[..|listed|] == listed;
    forall position, name ensures FindParameter(result, position, name) == LastListed(listed, position, name) {
      MergedFindsLast(listed, position, name);
    }
  }

  method CompareParameters(parameters: seq<Parameter>, current: seq<Parameter>, location: string, findings: FindingLog)
    modifies findings
    ensures findings.entries == old(findings.entries) + Each(parameters, 0, p => ParameterFindings(p, current, location))
  {
    hide SchemaFindings, FindParameter;
    ghost var f := p => ParameterFindings(p, current, location);
    for k := 0 to |parameters|
      invariant old(findings.entries) + Each(parameters, 0, f) == findings.entries + Each(parameters, k, f)
    {
      var p := parameters[k];
      Associative(findings.entries, f(p), Each(parameters, k + 1, f));
      CompareParameter(p, current, location, findings);
    }
  }

  method CompareParameter(p: Parameter, current: seq<Parameter>, location: string, findings: FindingLog)
    modifies findings
    ensures findings.entries == old(findings.entries) + ParameterFindings(p, current, location)
  {
    hide SchemaFindings, FindParameter;
    var q := FindParameter(current, p.position, p.name);
    if q.None? {
      findings.Append(location, RemovedParameter(p.position, p.name));
      return;
    }
    CompareSchema(p.schema, q.value.schema, location + " parameter " + p.position + ":" + p.name, findings);
    if !p.required && q.value.required {
      findings.Append(location, RequiredParameter(p.position, p.name));
    }
  }

  method CompareAddedParameters(parameters: seq<Parameter>, previous: seq<Parameter>, location: string, findings: FindingLog)
    modifies findings
    ensures findings.entries == old(findings.entries) + Each(parameters, 0, q => AddedParameterFindings(q, previous, location))
  {
    hide FindParameter;
    ghost var f := q => AddedParameterFindings(q, previous, location);
    for k := 0 to |parameters|
      invariant old(findings.entries) + Each(parameters, 0, f) == findings.entries + Each(parameters, k, f)
    {
      var q := parameters[k];
      Associative(findings.entries, f(q), Each(parameters, k + 1, f));
      if FindParameter(previous, q.position, q.name).None? && q.required {
        findings.Append(location, AddedRequiredParameter(q.position, q.name));
      }
    }
  }

  method CompareBody(previous: Option<Body>, current: Option<Body>, location: string, findings: FindingLog)
    modifies findings
    ensures findings.entries == old(findings.entries) + BodyFindings(previous, current, location)
  {
    hide ContentFindings;
    if previous.None? && current.Some? {
      if current.value.required {
        findings.Append(location, AddedRequiredBody);
      }
    } else if previous.Some? && current.None? {
      findings.Append(location, RemovedBody);
    } else if previous.Some? && current.Some? {
      if !previous.value.required && current.value.required {
        findings.Append(location, RequiredBody);
      }
      CompareContent(previous.value.content, current.value.content, location + " request", findings);
    }
  }

  method CompareContent(previous: seq<Field>, current: seq<Field>, location: string, findings: FindingLog)
    modifies findings
    ensures findings.entries == old(findings.entries) + ContentFindings(previous, current, location)
  {
    hide SchemaFindings, Find;
    ghost var f := m => MediaFindings(m, current, location);
    for k := 0 to |previous|
      invariant old(findings.entries) + Each(previous, 0, f) == findings.entries + Each(previous, k, f)
    {
      var media := previous[k];
      Associative(findings.entries, f(media), Each(previous, k + 1, f));
      var schema := Find(current, media.name);
      if schema.None? {
        findings.Append(location, RemovedMediaType(media.name));
      } else {
        CompareSchema(media.value, schema.value, location + " " + media.name, findings);
      }
    }
  }

  method CompareResponses(responses: seq<Response>, current: seq<Response>, location: string, findings: FindingLog)
    modifies findings
    ensures findings.entries == old(findings.entries) + Each(responses, 0, r => ResponseFindings(r, current, location))
  {
    hide ContentFindings, FindResponse;
    ghost var f := r => ResponseFindings(r, current, location);
    for k := 0 to |responses|
      invariant old(findings.entries) + Each(responses, 0, f) == findings.entries + Each(responses, k, f)
    {
      var r := responses[k];
      Associative(findings.entries, f(r), Each(responses, k + 1, f));
      var n := FindResponse(current, r.status);
      if n.None? {
        findings.Append(location, RemovedResponse(r.status));
      } else {
        CompareContent(r.content, n.value.content, location + " response " + r.status, findings);
      }
    }
  }

  method CompareComponents(schemas: seq<Field>, current: seq<Field>, findings: FindingLog)
    modifies findings
    ensures findings.entries == old(findings.entries) + Each(schemas, 0, f => ComponentFindings(f, current))
  {
    hide SchemaFindings, Find;
    ghost var f := s => ComponentFindings(s, current);
    for k := 0 to |schemas|
      invariant old(findings.entries) + Each(schemas, 0, f) == findings.entries + Each(schemas, k, f)
    {
      var s := schemas[k];
      Associative(findings.entries, f(s), Each(schemas, k + 1, f));
      var n := Find(current, s.name);
      if n.None? {
        findings.Append("", RemovedSchema(s.name));
      } else {
        CompareSchema(s.value, n.value, "components.schemas." + s.name, findings);
      }
    }
  }

  method CompareSchemes(schemes: seq<Field>, current: seq<Field>, findings: FindingLog)
    modifies findings
    ensures findings.entries == old(findings.entries) + Each(schemes, 0, f => SchemeFindings(f, current))
  {
    hide Find, PyEq;
    ghost var f := s => SchemeFindings(s, current);
    for k := 0 to |schemes|
      invariant old(findings.entries) + Each(schemes, 0, f) == findings.entries + Each(schemes, k, f)
    {
      var s := schemes[k];
      Associative(findings.entries, f(s), Each(schemes, k + 1, f));
      var n := Find(current, s.name);
      if n.None? {
        findings.Append("", RemovedSecurityScheme(s.name));
      } else if !PyEq(s.value, n.value) {
        findings.Append("", ChangedSecurityScheme(s.name));
      }
    }
  }
}
