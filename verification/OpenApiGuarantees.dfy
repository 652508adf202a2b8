/**
 * What an empty report of the document comparer guarantees: it is a preorder, and no request
 * that the old document describes is refused by the new one.
 */
module OpenApiGuarantees {
  import opened Wrappers
  import opened Json
  import opened Sorting
  import opened SchemaContract
  import opened SchemaOrder
  import opened SchemaSemantics
  import opened OpenApiContract

  // ---------- no findings, by quantifiers ----------

  ghost predicate ContentCompatible(o: seq<Field>, n: seq<Field>) {
    forall i :: 0 <= i < |o| ==> Has(n, o[i].name) && Compatible(o[i].value, Find(n, o[i].name).value)
  }

  ghost predicate ParametersCompatible(o: seq<Parameter>, n: seq<Parameter>) {
    && (forall i :: 0 <= i < |o| ==> ParameterCompatible(o[i], n))
    && (forall i :: 0 <= i < |n| ==> n[i].required ==> FindParameter(o, n[i].position, n[i].name).Some?)
  }

  ghost predicate ParameterCompatible(p: Parameter, n: seq<Parameter>) {
    var q := FindParameter(n, p.position, p.name);
    q.Some? && Compatible(p.schema, q.value.schema) && (q.value.required ==> p.required)
  }

  ghost predicate BodyCompatible(o: Option<Body>, n: Option<Body>) {
    match (o, n)
    case (None, None) => true
    case (None, Some(y)) => !y.required
    case (Some(_), None) => false
    case (Some(x), Some(y)) => (y.required ==> x.required) && ContentCompatible(x.content, y.content)
  }

  ghost predicate ResponsesCompatible(o: seq<Response>, n: seq<Response>) {
    forall i :: 0 <= i < |o| ==>
      var r := FindResponse(n, o[i].status);
      r.Some? && ContentCompatible(o[i].content, r.value.content)
  }

  function AllParameters(item: PathItem, operation: Operation): seq<Parameter> {
    MergeParameters(item.parameters + operation.parameters)
  }

  ghost predicate OperationCompatible(o: PathItem, x: Operation, n: PathItem, y: Operation) {
    && SecurityKept(x.security, y.security)
    && ParametersCompatible(AllParameters(o, x), AllParameters(n, y))
    && BodyCompatible(x.body, y.body)
    && ResponsesCompatible(x.responses, y.responses)
  }

  ghost predicate VerbCompatible(verb: string, o: PathItem, n: PathItem) {
    var x, y := FindOperation(o.operations, verb), FindOperation(n.operations, verb);
    x.Some? ==> y.Some? && OperationCompatible(o, x.value, n, y.value)
  }

  ghost predicate PathCompatible(o: PathItem, n: PathItem) {
    forall i :: 0 <= i < |HTTP_METHODS| ==> VerbCompatible(HTTP_METHODS[i], o, n)
  }

  ghost predicate PathsCompatible(o: seq<PathItem>, n: seq<PathItem>) {
    forall p :: p in o ==> FindPath(n, p.path).Some? && PathCompatible(p, FindPath(n, p.path).value)
  }

  ghost predicate SchemesCompatible(o: seq<Field>, n: seq<Field>) {
    forall i :: 0 <= i < |o| ==> Has(n, o[i].name) && PyEq(o[i].value, Find(n, o[i].name).value)
  }

  ghost predicate DocumentCompatible(o: Document, n: Document) {
    && SecurityKept(o.security, n.security)
    && PathsCompatible(o.paths, n.paths)
    && ContentCompatible(o.schemas, n.schemas)
    && SchemesCompatible(o.schemes, n.schemes)
  }

  lemma ContentSilence(o: seq<Field>, n: seq<Field>, location: string)
    ensures ContentFindings(o, n, location) == [] <==> ContentCompatible(o, n)
  {
    hide SchemaFindings, Compatible, Find;
    EachSilent(o, 0, m => MediaFindings(m, n, location));
    forall m: Field ensures MediaFindings(m, n, location) == [] <==> Has(n, m.name) && Compatible(m.value, Find(n, m.name).value) {
      if Has(n, m.name) {
        SilenceIsCompatibility(m.value, Find(n, m.name).value, location + " " + m.name);
      }
    }
  }

  lemma ParameterSilence(p: Parameter, n: seq<Parameter>, location: string)
    ensures ParameterFindings(p, n, location) == [] <==> ParameterCompatible(p, n)
  {
    hide SchemaFindings, Compatible, FindParameter;
    var q := FindParameter(n, p.position, p.name);
    if q.Some? {
      SilenceIsCompatibility(p.schema, q.value.schema, location + " parameter " + p.position + ":" + p.name);
    }
  }

  lemma OperationSilence(path: string, o: PathItem, x: Operation, n: PathItem, y: Operation)
    ensures OperationFindings(path, x, y, o.parameters, n.parameters) == [] <==> OperationCompatible(o, x, n, y)
  {
    hide Compatible, FindParameter, ParameterFindings, ResponseFindings, ContentFindings, ContentCompatible, Each,
      MergeParameters, Upper, SecurityKept;
    var location := Upper(x.verb) + " " + path;
    var p, q := AllParameters(o, x), AllParameters(n, y);
    EachSilent(p, 0, a => ParameterFindings(a, q, location));
    forall a: Parameter ensures ParameterFindings(a, q, location) == [] <==> ParameterCompatible(a, q) {
      ParameterSilence(a, q, location);
    }
    EachSilent(q, 0, b => AddedParameterFindings(b, p, location));
    if x.body.Some? && y.body.Some? {
      ContentSilence(x.body.value.content, y.body.value.content, location + " request");
    }
    ResponsesSilence(x.responses, y.responses, location);
  }

  lemma ResponsesSilence(o: seq<Response>, n: seq<Response>, location: string)
    ensures Each(o, 0, r => ResponseFindings(r, n, location)) == [] <==> ResponsesCompatible(o, n)
  {
    hide FindResponse, ContentFindings, ContentCompatible, Each;
    EachSilent(o, 0, r => ResponseFindings(r, n, location));
    forall r: Response
      ensures ResponseFindings(r, n, location) == []
              <==> FindResponse(n, r.status).Some? && ContentCompatible(r.content, FindResponse(n, r.status).value.content)
    {
      var m := FindResponse(n, r.status);
      if m.Some? {
        ContentSilence(r.content, m.value.content, location + " response " + r.status);
      }
    }
  }

  lemma PathSilence(o: PathItem, current: seq<PathItem>)
    ensures PathFindings(o, current) == []
            <==> FindPath(current, o.path).Some? && PathCompatible(o, FindPath(current, o.path).value)
  {
    hide OperationFindings, OperationCompatible, FindOperation, FindPath, HTTP_METHODS, Each;
    var n := FindPath(current, o.path);
    if n.Some? {
      EachSilent(HTTP_METHODS, 0, verb => VerbFindings(verb, o, n.value));
      forall verb: string ensures VerbFindings(verb, o, n.value) == [] <==> VerbCompatible(verb, o, n.value) {
        var x, y := FindOperation(o.operations, verb), FindOperation(n.value.operations, verb);
        if x.Some? && y.Some? {
          OperationSilence(o.path, o, x.value, n.value, y.value);
        }
      }
    }
  }

  lemma SortedSilent<T(!new)>(xs: seq<T>, key: T -> string, f: T -> seq<Finding>)
    ensures Each(SortBy(xs, key), 0, f) == [] <==> forall x :: x in xs ==> f(x) == []
  {
    hide SortBy, Each;
    var sorted := SortBy(xs, key);
    EachSilent(sorted, 0, f);
    MultisetMembers(sorted, xs);
  }

  lemma PathsSilence(o: seq<PathItem>, n: seq<PathItem>)
    ensures Each(SortBy(o, (p: PathItem) => p.path), 0, p => PathFindings(p, n)) == [] <==> PathsCompatible(o, n)
  {
    hide PathFindings, PathCompatible, FindPath, SortBy, Each;
    SortedSilent(o, (p: PathItem) => p.path, p => PathFindings(p, n));
    forall p: PathItem
      ensures PathFindings(p, n) == [] <==> FindPath(n, p.path).Some? && PathCompatible(p, FindPath(n, p.path).value)
    {
      PathSilence(p, n);
    }
  }

  lemma ComponentsSilence(o: seq<Field>, n: seq<Field>)
    ensures Each(SortBy(o, (f: Field) => f.name), 0, f => ComponentFindings(f, n)) == [] <==> ContentCompatible(o, n)
  {
    hide SchemaFindings, Compatible, Find, SortBy, Each;
    SortedSilent(o, (f: Field) => f.name, f => ComponentFindings(f, n));
    assert forall i :: 0 <= i < |o| ==> o[i] in o;
    forall f: Field ensures ComponentFindings(f, n) == [] <==> Has(n, f.name) && Compatible(f.value, Find(n, f.name).value) {
      if Has(n, f.name) {
        SilenceIsCompatibility(f.value, Find(n, f.name).value, "components.schemas." + f.name);
      }
    }
  }

  lemma SchemesSilence(o: seq<Field>, n: seq<Field>)
    ensures Each(SortBy(o, (f: Field) => f.name), 0, f => SchemeFindings(f, n)) == [] <==> SchemesCompatible(o, n)
  {
    hide PyEq, Find, SortBy, Each;
    SortedSilent(o, (f: Field) => f.name, f => SchemeFindings(f, n));
    assert forall i :: 0 <= i < |o| ==> o[i] in o;
  }

  /** The report on two documents is empty exactly when every compared part is compatible. */
  lemma DocumentSilence(o: Document, n: Document)
    ensures DocumentFindings(o, n) == [] <==> DocumentCompatible(o, n)
  {
    hide Each, SortBy, PathsCompatible, ContentCompatible, SchemesCompatible, SecurityKept, PathFindings,
      ComponentFindings, SchemeFindings;
    PathsSilence(o.paths, n.paths);
    ComponentsSilence(o.schemas, n.schemas);
    SchemesSilence(o.schemes, n.schemes);
  }

  // ---------- reflexivity ----------

  // Every mapping has each key once, as the parsed document has.
  ghost predicate WellFormedContent(content: seq<Field>) {
    DistinctNames(content) && forall i :: 0 <= i < |content| ==> WellFormed(content[i].value)
  }

  ghost predicate WellFormedOperation(item: PathItem, x: Operation) {
    && (x.security.Some? ==> WellFormed(x.security.value))
    && (forall p :: p in AllParameters(item, x) ==> WellFormed(p.schema))
    && (x.body.Some? ==> WellFormedContent(x.body.value.content))
    && (forall i, j :: 0 <= i < j < |x.responses| ==> x.responses[i].status != x.responses[j].status)
    && (forall i :: 0 <= i < |x.responses| ==> WellFormedContent(x.responses[i].content))
  }

  ghost predicate WellFormedDocument(d: Document) {
    && (d.security.Some? ==> WellFormed(d.security.value))
    && (forall i, j :: 0 <= i < j < |d.paths| ==> d.paths[i].path != d.paths[j].path)
    && (forall p, x :: p in d.paths && x in p.operations ==> WellFormedOperation(p, x))
    && WellFormedContent(d.schemas)
    && DistinctNames(d.schemes) && (forall i :: 0 <= i < |d.schemes| ==> WellFormed(d.schemes[i].value))
  }

  // Every anyOf and oneOf that is compared is a list.
  ghost predicate ListedContent(content: seq<Field>) { forall i :: 0 <= i < |content| ==> ListedAlternatives(content[i].value) }

  ghost predicate ListedOperation(item: PathItem, x: Operation) {
    && (forall i :: 0 <= i < |AllParameters(item, x)| ==> ListedAlternatives(AllParameters(item, x)[i].schema))
    && (x.body.Some? ==> ListedContent(x.body.value.content))
    && (forall i :: 0 <= i < |x.responses| ==> ListedContent(x.responses[i].content))
  }

  ghost predicate ListedVerb(verb: string, item: PathItem) {
    var x := FindOperation(item.operations, verb);
    x.Some? ==> ListedOperation(item, x.value)
  }

  ghost predicate ListedDocument(d: Document) {
    && ListedContent(d.schemas)
    && forall p :: p in d.paths ==> forall i :: 0 <= i < |HTTP_METHODS| ==> ListedVerb(HTTP_METHODS[i], p)
  }

  lemma ContentReflexive(content: seq<Field>)
    requires WellFormedContent(content)
    ensures ContentCompatible(content, content) <==> ListedContent(content)
  {
    hide Compatible, ListedAlternatives;
    forall i | 0 <= i < |content|
      ensures Find(content, content[i].name) == Some(content[i].value)
      ensures Compatible(content[i].value, content[i].value) <==> ListedAlternatives(content[i].value)
    {
      FindAt(content, i);
      CompatibleReflexive(content[i].value);
    }
  }

  ghost predicate DistinctParameters(ps: seq<Parameter>) {
    forall i, j :: 0 <= i < j < |ps| ==> ps[i].position != ps[j].position || ps[i].name != ps[j].name
  }

  lemma {:induction false} FindParameterAt(ps: seq<Parameter>, p: Parameter)
    requires DistinctParameters(ps) && p in ps
    ensures FindParameter(ps, p.position, p.name) == Some(p)
  {
    if ps[0] != p {
      assert p in ps[1..];
      FindParameterAt(ps[1..], p);
    }
  }

  lemma {:induction false} PutDistinct(ps: seq<Parameter>, p: Parameter)
    requires DistinctParameters(ps)
    ensures DistinctParameters(PutParameter(ps, p))
    ensures forall q :: q in PutParameter(ps, p) ==> q == p || q in ps
  {
    if ps != [] && (ps[0].position != p.position || ps[0].name != p.name) {
      var rest := PutParameter(ps[1..], p);
      PutDistinct(ps[1..], p);
      forall j | 0 <= j < |rest| ensures ps[0].position != rest[j].position || ps[0].name != rest[j].name {
        assert rest[j] in rest;
        if rest[j] != p {
          var k :| 0 <= k < |ps[1..]| && ps[1..][k] == rest[j];
          assert ps[k + 1] == rest[j];
        }
      }
    }
  }

  lemma {:induction false} MergeDistinct(listed: seq<Parameter>)
    ensures DistinctParameters(MergeParameters(listed))
  {
    if listed != [] {
      MergeDistinct(listed[..|listed| - 1]);
      PutDistinct(MergeParameters(listed[..|listed| - 1]), listed[|listed| - 1]);
    }
  }

  lemma SecurityReflexive(security: Option<Json>)
    requires security.Some? ==> WellFormed(security.value)
    ensures SecurityKept(security, security)
  {
    SameReflexive(if security.Some? then security.value else Null, Python);
  }

  lemma OperationReflexive(item: PathItem, x: Operation)
    requires WellFormedOperation(item, x)
    ensures OperationCompatible(item, x, item, x) <==> ListedOperation(item, x)
  {
    hide Compatible, ListedAlternatives, WellFormed, SecurityKept, MergeParameters, ListedContent;
    SecurityReflexive(x.security);
    var ps := AllParameters(item, x);
    MergeDistinct(item.parameters + x.parameters);
    forall i | 0 <= i < |ps| ensures ParameterCompatible(ps[i], ps) <==> ListedAlternatives(ps[i].schema)
      ensures FindParameter(ps, ps[i].position, ps[i].name).Some?
    {
      FindParameterAt(ps, ps[i]);
      CompatibleReflexive(ps[i].schema);
    }
    if x.body.Some? {
      ContentReflexive(x.body.value.content);
    }
    ResponsesReflexive(x.responses);
  }

  lemma {:induction false} FindResponseAt(responses: seq<Response>, i: nat)
    requires i < |responses|
    requires forall i, j :: 0 <= i < j < |responses| ==> responses[i].status != responses[j].status
    ensures FindResponse(responses, responses[i].status) == Some(responses[i])
  {
    if i > 0 {
      FindResponseAt(responses[1..], i - 1);
    }
  }

  lemma ResponsesReflexive(responses: seq<Response>)
    requires forall i, j :: 0 <= i < j < |responses| ==> responses[i].status != responses[j].status
    requires forall i :: 0 <= i < |responses| ==> WellFormedContent(responses[i].content)
    ensures ResponsesCompatible(responses, responses)
            <==> forall i :: 0 <= i < |responses| ==> ListedContent(responses[i].content)
  {
    hide FindResponse, ContentCompatible, WellFormedContent, ListedContent;
    forall i | 0 <= i < |responses|
      ensures FindResponse(responses, responses[i].status) == Some(responses[i])
      ensures ContentCompatible(responses[i].content, responses[i].content) <==> ListedContent(responses[i].content)
    {
      FindResponseAt(responses, i);
      ContentReflexive(responses[i].content);
    }
  }

  lemma {:induction false} FindPathAt(items: seq<PathItem>, p: PathItem)
    requires p in items
    requires forall i, j :: 0 <= i < j < |items| ==> items[i].path != items[j].path
    ensures FindPath(items, p.path) == Some(p)
  {
    if items[0] != p {
      assert p in items[1..];
      FindPathAt(items[1..], p);
    }
  }

  /** A document compared with itself has no findings exactly when every anyOf and oneOf that is compared is a list. */
  lemma DocumentReflexive(d: Document)
    requires WellFormedDocument(d)
    ensures DocumentFindings(d, d) == [] <==> ListedDocument(d)
  {
    hide DocumentFindings, SecurityKept, ContentCompatible, WellFormedContent, ListedContent, OperationCompatible, WellFormedOperation,
      ListedOperation, HTTP_METHODS;
    SecurityReflexive(d.security);
    ContentReflexive(d.schemas);
    forall i | 0 <= i < |d.schemes| ensures Has(d.schemes, d.schemes[i].name)
      ensures PyEq(d.schemes[i].value, Find(d.schemes, d.schemes[i].name).value)
    {
      FindAt(d.schemes, i);
      SameReflexive(d.schemes[i].value, Python);
    }
    forall p | p in d.paths
      ensures FindPath(d.paths, p.path) == Some(p)
      ensures PathCompatible(p, p) <==> forall i :: 0 <= i < |HTTP_METHODS| ==> ListedVerb(HTTP_METHODS[i], p)
    {
      FindPathAt(d.paths, p);
      forall verb: string ensures VerbCompatible(verb, p, p) <==> ListedVerb(verb, p) {
        var x := FindOperation(p.operations, verb);
        if x.Some? {
          OperationReflexive(p, x.value);
        }
      }
    }
    DocumentSilence(d, d);
  }

  // ---------- transitivity ----------

  // A relation on schemas holds of every three that stand in the same place.
  type Relation = (Json, Json, Json) -> bool

  ghost predicate InContent(relation: Relation, a: seq<Field>, m: seq<Field>, c: seq<Field>) {
    forall i :: 0 <= i < |a| && Has(m, a[i].name) && Has(c, a[i].name) ==>
      relation(a[i].value, Find(m, a[i].name).value, Find(c, a[i].name).value)
  }

  ghost predicate InParameters(relation: Relation, a: seq<Parameter>, m: seq<Parameter>, c: seq<Parameter>) {
    forall i :: 0 <= i < |a| ==>
      var q, r := FindParameter(m, a[i].position, a[i].name), FindParameter(c, a[i].position, a[i].name);
      q.Some? && r.Some? ==> relation(a[i].schema, q.value.schema, r.value.schema)
  }

  ghost predicate InBody(relation: Relation, a: Option<Body>, m: Option<Body>, c: Option<Body>) {
    a.Some? && m.Some? && c.Some? ==> InContent(relation, a.value.content, m.value.content, c.value.content)
  }

  ghost predicate InResponses(relation: Relation, a: seq<Response>, m: seq<Response>, c: seq<Response>) {
    forall i :: 0 <= i < |a| ==>
      var q, r := FindResponse(m, a[i].status), FindResponse(c, a[i].status);
      q.Some? && r.Some? ==> InContent(relation, a[i].content, q.value.content, r.value.content)
  }

  ghost predicate InOperation(relation: Relation, a: PathItem, x: Operation, m: PathItem, y: Operation, c: PathItem, z: Operation) {
    && InParameters(relation, AllParameters(a, x), AllParameters(m, y), AllParameters(c, z))
    && InBody(relation, x.body, y.body, z.body)
    && InResponses(relation, x.responses, y.responses, z.responses)
  }

  ghost predicate InVerb(relation: Relation, verb: string, a: PathItem, m: PathItem, c: PathItem) {
    var x, y, z := FindOperation(a.operations, verb), FindOperation(m.operations, verb), FindOperation(c.operations, verb);
    x.Some? && y.Some? && z.Some? ==> InOperation(relation, a, x.value, m, y.value, c, z.value)
  }

  ghost predicate InPath(relation: Relation, a: PathItem, m: PathItem, c: PathItem) {
    forall i :: 0 <= i < |HTTP_METHODS| ==> InVerb(relation, HTTP_METHODS[i], a, m, c)
  }

  ghost predicate InDocuments(relation: Relation, a: Document, m: Document, c: Document) {
    && InContent(relation, a.schemas, m.schemas, c.schemas)
    && forall p :: p in a.paths && FindPath(m.paths, p.path).Some? && FindPath(c.paths, p.path).Some? ==>
         InPath(relation, p, FindPath(m.paths, p.path).value, FindPath(c.paths, p.path).value)
  }

  lemma ContentTransitive(a: seq<Field>, m: seq<Field>, c: seq<Field>)
    requires ContentCompatible(a, m) && ContentCompatible(m, c) && InContent(TypedBetween, a, m, c)
    ensures ContentCompatible(a, c) <==> InContent(Bridged, a, m, c)
  {
    hide Compatible, TypedBetween, Bridged;
    forall i | 0 <= i < |a|
      ensures Has(m, a[i].name) && Has(c, a[i].name)
      ensures Compatible(a[i].value, Find(c, a[i].name).value) <==> Bridged(a[i].value, Find(m, a[i].name).value, Find(c, a[i].name).value)
    {
      var y := Find(m, a[i].name).value;
      var j :| 0 <= j < |m| && m[j] == Field(a[i].name, y);
      assert Has(c, m[j].name);
      CompatibleTransitive(a[i].value, y, Find(c, a[i].name).value);
    }
  }

  lemma ParametersTransitive(a: seq<Parameter>, m: seq<Parameter>, c: seq<Parameter>)
    requires ParametersCompatible(a, m) && ParametersCompatible(m, c) && InParameters(TypedBetween, a, m, c)
    requires DistinctParameters(c)
    ensures ParametersCompatible(a, c) <==> InParameters(Bridged, a, m, c)
  {
    hide Compatible, TypedBetween, Bridged, FindParameter;
    forall i | 0 <= i < |a|
      ensures var q, r := FindParameter(m, a[i].position, a[i].name), FindParameter(c, a[i].position, a[i].name);
              q.Some? && r.Some? && (ParameterCompatible(a[i], c) <==> Bridged(a[i].schema, q.value.schema, r.value.schema))
    {
      assert ParameterCompatible(a[i], m);
      var q := FindParameter(m, a[i].position, a[i].name).value;
      var j :| 0 <= j < |m| && m[j] == q;
      assert ParameterCompatible(m[j], c);
      CompatibleTransitive(a[i].schema, q.schema, FindParameter(c, q.position, q.name).value.schema);
    }
    forall i | 0 <= i < |c| && c[i].required ensures FindParameter(a, c[i].position, c[i].name).Some? {
      var q := FindParameter(m, c[i].position, c[i].name).value;
      var j :| 0 <= j < |m| && m[j] == q;
      assert ParameterCompatible(m[j], c);
      FindParameterAt(c, c[i]);
    }
  }

  lemma BodyTransitive(a: Option<Body>, m: Option<Body>, c: Option<Body>)
    requires BodyCompatible(a, m) && BodyCompatible(m, c) && InBody(TypedBetween, a, m, c)
    ensures BodyCompatible(a, c) <==> InBody(Bridged, a, m, c)
  {
    hide ContentCompatible, InContent;
    if a.Some? && m.Some? && c.Some? {
      ContentTransitive(a.value.content, m.value.content, c.value.content);
    }
  }

  lemma ResponsesTransitive(a: seq<Response>, m: seq<Response>, c: seq<Response>)
    requires ResponsesCompatible(a, m) && ResponsesCompatible(m, c) && InResponses(TypedBetween, a, m, c)
    ensures ResponsesCompatible(a, c) <==> InResponses(Bridged, a, m, c)
  {
    hide ContentCompatible, InContent, FindResponse;
    forall i | 0 <= i < |a|
      ensures var q, r := FindResponse(m, a[i].status), FindResponse(c, a[i].status);
              q.Some? && r.Some?
              && (ContentCompatible(a[i].content, r.value.content) <==> InContent(Bridged, a[i].content, q.value.content, r.value.content))
    {
      var q := FindResponse(m, a[i].status).value;
      var j :| 0 <= j < |m| && m[j] == q;
      assert FindResponse(c, m[j].status).Some?;
      ContentTransitive(a[i].content, q.content, FindResponse(c, q.status).value.content);
    }
  }

  lemma OperationTransitive(a: PathItem, x: Operation, m: PathItem, y: Operation, c: PathItem, z: Operation)
    requires OperationCompatible(a, x, m, y) && OperationCompatible(m, y, c, z)
    requires InOperation(TypedBetween, a, x, m, y, c, z)
    ensures OperationCompatible(a, x, c, z) <==> InOperation(Bridged, a, x, m, y, c, z)
  {
    hide ParametersCompatible, BodyCompatible, ResponsesCompatible, InParameters, InBody, InResponses, MergeParameters, PyEq;
    SecurityTransitive(x.security, y.security, z.security);
    MergeDistinct(c.parameters + z.parameters);
    ParametersTransitive(AllParameters(a, x), AllParameters(m, y), AllParameters(c, z));
    BodyTransitive(x.body, y.body, z.body);
    ResponsesTransitive(x.responses, y.responses, z.responses);
  }

  lemma SecurityTransitive(a: Option<Json>, m: Option<Json>, c: Option<Json>)
    requires SecurityKept(a, m) && SecurityKept(m, c)
    ensures SecurityKept(a, c)
  {
    SameTransitive(if a.Some? then a.value else Null, if m.Some? then m.value else Null,
      if c.Some? then c.value else Null, Python);
  }

  lemma SchemesTransitive(a: seq<Field>, m: seq<Field>, c: seq<Field>)
    requires SchemesCompatible(a, m) && SchemesCompatible(m, c)
    ensures SchemesCompatible(a, c)
  {
    hide Same;
    forall i | 0 <= i < |a| ensures Has(c, a[i].name) && PyEq(a[i].value, Find(c, a[i].name).value) {
      var y := Find(m, a[i].name).value;
      var j :| 0 <= j < |m| && m[j] == Field(a[i].name, y);
      assert Has(c, m[j].name);
      SameTransitive(a[i].value, y, Find(c, a[i].name).value, Python);
    }
  }

  lemma PathTransitive(a: PathItem, m: PathItem, c: PathItem)
    requires PathCompatible(a, m) && PathCompatible(m, c) && InPath(TypedBetween, a, m, c)
    ensures PathCompatible(a, c) <==> InPath(Bridged, a, m, c)
  {
    hide OperationCompatible, InOperation, FindOperation, HTTP_METHODS;
    forall i | 0 <= i < |HTTP_METHODS|
      ensures VerbCompatible(HTTP_METHODS[i], a, c) <==> InVerb(Bridged, HTTP_METHODS[i], a, m, c)
    {
      var verb := HTTP_METHODS[i];
      assert VerbCompatible(verb, a, m) && VerbCompatible(verb, m, c) && InVerb(TypedBetween, verb, a, m, c);
      var x := FindOperation(a.operations, verb);
      if x.Some? {
        OperationTransitive(a, x.value, m, FindOperation(m.operations, verb).value, c, FindOperation(c.operations, verb).value);
      }
    }
  }

  /** Two releases without findings make one upgrade without findings exactly when no dropped `items` comes back incompatible. */
  lemma DocumentTransitive(a: Document, m: Document, c: Document)
    requires DocumentFindings(a, m) == [] && DocumentFindings(m, c) == [] && InDocuments(TypedBetween, a, m, c)
    ensures DocumentFindings(a, c) == [] <==> InDocuments(Bridged, a, m, c)
  {
    hide DocumentFindings, SecurityKept, ContentCompatible, SchemesCompatible, PathCompatible, InContent, InPath;
    DocumentSilence(a, m);
    DocumentSilence(m, c);
    DocumentSilence(a, c);
    SecurityTransitive(a.security, m.security, c.security);
    ContentTransitive(a.schemas, m.schemas, c.schemas);
    SchemesTransitive(a.schemes, m.schemes, c.schemes);
    forall p | p in a.paths
      ensures FindPath(m.paths, p.path).Some? && FindPath(c.paths, p.path).Some?
      ensures PathCompatible(p, FindPath(c.paths, p.path).value)
              <==> InPath(Bridged, p, FindPath(m.paths, p.path).value, FindPath(c.paths, p.path).value)
    {
      var q := FindPath(m.paths, p.path).value;
      assert q in m.paths && q.path == p.path;
      PathTransitive(p, q, FindPath(c.paths, p.path).value);
    }
  }

  // ---------- requests keep being served ----------

  datatype Payload = Payload(mediaType: string, value: Json)

  // Parameter values by position and name, and a body.
  datatype Request = Request(parameters: map<(string, string), Json>, body: Option<Payload>)

  // Every parameter given is declared and accepted, and every required one is given.
  ghost predicate ParametersDescribe(vocabulary: Vocabulary, env: seq<Field>, ps: seq<Parameter>, r: Request) {
    && (forall i :: 0 <= i < |ps| ==>
          if (ps[i].position, ps[i].name) in r.parameters
          then Accepts(vocabulary, env, ps[i].schema, r.parameters[(ps[i].position, ps[i].name)])
          else !ps[i].required)
    && (forall key :: key in r.parameters ==> FindParameter(ps, key.0, key.1).Some?)
  }

  ghost predicate BodyDescribes(vocabulary: Vocabulary, env: seq<Field>, body: Option<Body>, payload: Option<Payload>) {
    match (body, payload)
    case (None, None) => true
    case (None, Some(_)) => false
    case (Some(b), None) => !b.required
    case (Some(b), Some(p)) =>
      Has(b.content, p.mediaType) && Accepts(vocabulary, env, Find(b.content, p.mediaType).value, p.value)
  }

  ghost predicate Serves(vocabulary: Vocabulary, d: Document, path: string, verb: string, r: Request) {
    var item := FindPath(d.paths, path);
    item.Some?
    && var x := FindOperation(item.value.operations, verb);
    x.Some?
    && ParametersDescribe(vocabulary, d.schemas, AllParameters(item.value, x.value), r)
    && BodyDescribes(vocabulary, d.schemas, x.value.body, r.body)
  }

  // Well-typed schemas that the comparer sees everything of, wherever two schemas are compared.
  ghost predicate AdditivePair(previous: Json, current: Json) {
    WellTyped(previous) && WellTyped(current) && Additive(previous, current)
  }

  ghost predicate ContentAdditive(o: seq<Field>, n: seq<Field>) {
    forall name :: Has(o, name) && Has(n, name) ==> AdditivePair(Find(o, name).value, Find(n, name).value)
  }

  ghost predicate OperationAdditive(o: PathItem, x: Operation, n: PathItem, y: Operation) {
    var p, q := AllParameters(o, x), AllParameters(n, y);
    && (forall a, b :: a in p && b in q && a.position == b.position && a.name == b.name ==> AdditivePair(a.schema, b.schema))
    && (x.body.Some? && y.body.Some? ==> ContentAdditive(x.body.value.content, y.body.value.content))
  }

  ghost predicate DocumentAdditive(o: Document, n: Document) {
    && ContentAdditive(o.schemas, n.schemas)
    && forall path, verb :: FindPath(o.paths, path).Some? && FindPath(n.paths, path).Some? ==>
         VerbAdditive(verb, FindPath(o.paths, path).value, FindPath(n.paths, path).value)
  }

  ghost predicate VerbAdditive(verb: string, o: PathItem, n: PathItem) {
    var x, y := FindOperation(o.operations, verb), FindOperation(n.operations, verb);
    x.Some? && y.Some? ==> OperationAdditive(o, x.value, n, y.value)
  }

  lemma ContentGivesSchemas(o: seq<Field>, n: seq<Field>)
    requires ContentCompatible(o, n) && ContentAdditive(o, n)
    ensures forall name :: Has(o, name) ==>
      Has(n, name) && SchemaAdditive(Find(o, name).value, Find(n, name).value)
  {
    hide Compatible, WellTyped, Additive;
    forall name | Has(o, name) ensures Has(n, name) && SchemaAdditive(Find(o, name).value, Find(n, name).value) {
      ContentEntry(o, n, name);
    }
  }

  lemma {:induction false} ContentEntry(o: seq<Field>, n: seq<Field>, name: string)
    requires ContentCompatible(o, n) && Has(o, name)
    ensures Has(n, name) && Compatible(Find(o, name).value, Find(n, name).value)
  {
    hide Compatible;
    var v := Find(o, name).value;
    var i :| 0 <= i < |o| && o[i] == Field(name, v);
    assert Has(n, o[i].name);
  }

  lemma BodyStillDescribed(vocabulary: Vocabulary, oldEnv: seq<Field>, newEnv: seq<Field>, o: Option<Body>, n: Option<Body>,
                           payload: Option<Payload>)
    requires SchemasAdditive(oldEnv, newEnv) && BodyCompatible(o, n)
    requires o.Some? && n.Some? ==> ContentAdditive(o.value.content, n.value.content)
    requires BodyDescribes(vocabulary, oldEnv, o, payload)
    ensures BodyDescribes(vocabulary, newEnv, n, payload)
  {
    hide ContentCompatible, ContentAdditive, SchemasAdditive, SchemaAdditive, Accepts, Find;
    if o.Some? && n.Some? && payload.Some? {
      var name := payload.value.mediaType;
      ContentGivesSchemas(o.value.content, n.value.content);
      AcceptanceWidens(vocabulary, oldEnv, newEnv, Find(o.value.content, name).value, Find(n.value.content, name).value,
        payload.value.value);
    }
  }

  lemma ParametersStillDescribed(vocabulary: Vocabulary, oldEnv: seq<Field>, newEnv: seq<Field>, p: seq<Parameter>,
                                 q: seq<Parameter>, r: Request)
    requires SchemasAdditive(oldEnv, newEnv) && ParametersCompatible(p, q) && DistinctParameters(q)
    requires forall a, b :: a in p && b in q && a.position == b.position && a.name == b.name ==> AdditivePair(a.schema, b.schema)
    requires ParametersDescribe(vocabulary, oldEnv, p, r)
    ensures ParametersDescribe(vocabulary, newEnv, q, r)
  {
    hide SchemasAdditive, SchemaAdditive, Accepts, FindParameter, WellTyped, Additive, Compatible;
    forall i | 0 <= i < |q|
      ensures if (q[i].position, q[i].name) in r.parameters
              then Accepts(vocabulary, newEnv, q[i].schema, r.parameters[(q[i].position, q[i].name)])
              else !q[i].required
    {
      var key := (q[i].position, q[i].name);
      var a := FindParameter(p, q[i].position, q[i].name);
      FindParameterAt(q, q[i]);
      if a.Some? {
        var j :| 0 <= j < |p| && p[j] == a.value;
        assert ParameterCompatible(p[j], q);
        if key in r.parameters {
          assert AdditivePair(a.value.schema, q[i].schema);
          assert SchemaAdditive(a.value.schema, q[i].schema) by { PairIsAdditive(a.value.schema, q[i].schema); }
          AcceptanceWidens(vocabulary, oldEnv, newEnv, a.value.schema, q[i].schema, r.parameters[key]);
        }
      }
    }
    forall key | key in r.parameters ensures FindParameter(q, key.0, key.1).Some? {
      var a := FindParameter(p, key.0, key.1).value;
      var j :| 0 <= j < |p| && p[j] == a;
      assert ParameterCompatible(p[j], q);
    }
  }

  lemma PairIsAdditive(previous: Json, current: Json)
    requires AdditivePair(previous, current) && Compatible(previous, current)
    ensures SchemaAdditive(previous, current)
  {
    hide Compatible, WellTyped, Additive;
  }

  // The operations an OpenAPI path may have.
  predicate IsVerb(verb: string) { verb in {"get", "put", "post", "delete", "options", "head", "patch", "trace"} }

  lemma VerbsAre(verb: string)
    ensures IsVerb(verb) <==> exists i :: 0 <= i < |HTTP_METHODS| && HTTP_METHODS[i] == verb
  {
    assert HTTP_METHODS[0] == "delete" && HTTP_METHODS[1] == "get" && HTTP_METHODS[2] == "head" && HTTP_METHODS[3] == "options"
           && HTTP_METHODS[4] == "patch" && HTTP_METHODS[5] == "post" && HTTP_METHODS[6] == "put" && HTTP_METHODS[7] == "trace";
  }

  /** An empty report: every request that the old document describes is described by the new one. */
  lemma RequestsStillServed(vocabulary: Vocabulary, o: Document, n: Document, path: string, verb: string, r: Request)
    requires DocumentFindings(o, n) == [] && DocumentAdditive(o, n)
    requires IsVerb(verb)
    requires Serves(vocabulary, o, path, verb, r)
    ensures Serves(vocabulary, n, path, verb, r)
  {
    hide DocumentFindings, SecurityKept, ContentCompatible, ContentAdditive, SchemesCompatible, SchemasAdditive,
      SchemaAdditive, Accepts, ParametersCompatible, BodyCompatible, ResponsesCompatible, MergeParameters, BodyDescribes,
      FindOperation, FindPath, FindParameter, HTTP_METHODS;
    DocumentSilence(o, n);
    ContentGivesSchemas(o.schemas, n.schemas);
    var a, b := FindPath(o.paths, path).value, FindPath(n.paths, path);
    assert b.Some? && PathCompatible(a, b.value);
    VerbsAre(verb);
    var i :| 0 <= i < |HTTP_METHODS| && HTTP_METHODS[i] == verb;
    assert VerbCompatible(HTTP_METHODS[i], a, b.value);
    var x, y := FindOperation(a.operations, verb).value, FindOperation(b.value.operations, verb).value;
    assert VerbAdditive(verb, a, b.value);
    MergeDistinct(b.value.parameters + y.parameters);
    assert SchemasAdditive(o.schemas, n.schemas) by { EnvironmentAdditive(o.schemas, n.schemas); }
    ParametersStillDescribed(vocabulary, o.schemas, n.schemas, AllParameters(a, x), AllParameters(b.value, y), r);
    BodyStillDescribed(vocabulary, o.schemas, n.schemas, x.body, y.body, r.body);
  }

  lemma EnvironmentAdditive(o: seq<Field>, n: seq<Field>)
    requires ContentCompatible(o, n) && ContentAdditive(o, n)
    ensures SchemasAdditive(o, n)
  {
    hide SchemaAdditive;
    ContentGivesSchemas(o, n);
  }
}
