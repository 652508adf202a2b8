/** What the report on two documents contains, exactly, in terms of the documents. */
module OpenApiReport {
  import opened Wrappers
  import opened Json
  import opened Sorting
  import opened SchemaContract
  import opened OpenApiContract
  import opened OpenApiGuarantees

  // ---------- the breaking changes ----------

  function Shouted(verb: string): string {
    if verb == "get" then "GET" else if verb == "put" then "PUT" else if verb == "post" then "POST"
    else if verb == "delete" then "DELETE" else if verb == "options" then "OPTIONS" else if verb == "head" then "HEAD"
    else if verb == "patch" then "PATCH" else "TRACE"
  }

  function SecurityOf(security: Option<Json>): Json { if security.Some? then security.value else Null }

  // The parameter of this place and name: the operation's, and otherwise the path's.
  function Declared(item: PathItem, x: Operation, position: string, name: string): Option<Parameter> {
    LastListed(item.parameters + x.parameters, position, name)
  }

  // The operation x of path a is y of path b.
  datatype Match = Match(a: PathItem, x: Operation, b: PathItem, y: Operation)

  ghost predicate IsMatch(o: Document, n: Document, verb: string, m: Match) {
    && IsVerb(verb) && m.a in o.paths && FindPath(n.paths, m.a.path) == Some(m.b)
    && FindOperation(m.a.operations, verb) == Some(m.x) && FindOperation(m.b.operations, verb) == Some(m.y)
  }

  ghost predicate IsBreaking(o: Document, n: Document, f: Finding) {
    || (f.location == "" && DocumentIssue(o, n, f.issue))
    || (exists verb, m :: IsMatch(o, n, verb, m) && OperationBreaks(m, Shouted(verb) + " " + m.a.path, f))
    || ComponentBreaks(o.schemas, n.schemas, f)
  }

  ghost predicate DocumentIssue(o: Document, n: Document, issue: Issue) {
    match issue
    case ChangedSecurity => !PyEq(SecurityOf(o.security), SecurityOf(n.security))
    case RemovedPath(path) => (exists a :: a in o.paths && a.path == path) && FindPath(n.paths, path).None?
    case RemovedOperation(verb, path) => exists v, a, b :: IsRemoved(o, n, v, a, b) && verb == Shouted(v) && path == a.path
    case RemovedSchema(name) => Has(o.schemas, name) && !Has(n.schemas, name)
    case RemovedSecurityScheme(name) => Has(o.schemes, name) && !Has(n.schemes, name)
    case ChangedSecurityScheme(name) => exists i :: 0 <= i < |o.schemes| && o.schemes[i].name == name && IsChanged(o.schemes[i], n.schemes)
    case _ => false
  }

  ghost predicate IsRemoved(o: Document, n: Document, verb: string, a: PathItem, b: PathItem) {
    && IsVerb(verb) && a in o.paths && FindPath(n.paths, a.path) == Some(b)
    && FindOperation(a.operations, verb).Some? && FindOperation(b.operations, verb).None?
  }

  predicate IsChanged(f: Field, others: seq<Field>) { Has(others, f.name) && !PyEq(f.value, Find(others, f.name).value) }

  ghost predicate OperationBreaks(m: Match, location: string, f: Finding) {
    || (f.location == location && OperationIssue(m, f.issue))
    || (exists position, name :: ParameterBreaks(m, position, name, location, f))
    || (m.x.body.Some? && m.y.body.Some? && ContentBreaks(m.x.body.value.content, m.y.body.value.content, location + " request", f))
    || (exists r, s :: r in m.x.responses && FindResponse(m.y.responses, r.status) == Some(s)
                       && ContentBreaks(r.content, s.content, location + " response " + r.status, f))
  }

  ghost predicate OperationIssue(m: Match, issue: Issue) {
    match issue
    case ChangedSecurity => !PyEq(SecurityOf(m.x.security), SecurityOf(m.y.security))
    case RemovedParameter(position, name) => Declared(m.a, m.x, position, name).Some? && Declared(m.b, m.y, position, name).None?
    case RequiredParameter(position, name) =>
      var p, q := Declared(m.a, m.x, position, name), Declared(m.b, m.y, position, name);
      p.Some? && q.Some? && !p.value.required && q.value.required
    case AddedRequiredParameter(position, name) =>
      var p, q := Declared(m.a, m.x, position, name), Declared(m.b, m.y, position, name);
      p.None? && q.Some? && q.value.required
    case AddedRequiredBody => m.x.body.None? && m.y.body.Some? && m.y.body.value.required
    case RemovedBody => m.x.body.Some? && m.y.body.None?
    case RequiredBody => m.x.body.Some? && m.y.body.Some? && !m.x.body.value.required && m.y.body.value.required
    case RemovedResponse(status) => FindResponse(m.x.responses, status).Some? && FindResponse(m.y.responses, status).None?
    case _ => false
  }

  // A finding of the schemas of a parameter that both have.
  ghost predicate ParameterBreaks(m: Match, position: string, name: string, location: string, f: Finding) {
    var p, q := Declared(m.a, m.x, position, name), Declared(m.b, m.y, position, name);
    p.Some? && q.Some? && f in SchemaFindings(p.value.schema, q.value.schema, location + " parameter " + position + ":" + name)
  }

  // A media type that is gone, or a finding of the schemas of one that both have.
  ghost predicate ContentBreaks(o: seq<Field>, n: seq<Field>, location: string, f: Finding) {
    exists i :: 0 <= i < |o| && MediaBreaks(o[i], n, location, f)
  }

  ghost predicate MediaBreaks(media: Field, n: seq<Field>, location: string, f: Finding) {
    match Find(n, media.name)
    case None => f == Finding(location, RemovedMediaType(media.name))
    case Some(schema) => f in SchemaFindings(media.value, schema, location + " " + media.name)
  }

  ghost predicate ComponentBreaks(o: seq<Field>, n: seq<Field>, f: Finding) {
    exists i :: 0 <= i < |o| && Has(n, o[i].name)
                && f in SchemaFindings(o[i].value, Find(n, o[i].name).value, "components.schemas." + o[i].name)
  }

  // ---------- one block after the other ----------

  lemma {:induction false} EachMembers<T>(xs: seq<T>, k: nat, g: T -> seq<Finding>, f: Finding)
    requires k <= |xs|
    ensures f in Each(xs, k, g) <==> exists i :: k <= i < |xs| && f in g(xs[i])
    decreases |xs| - k
  {
    if k < |xs| {
      EachMembers(xs, k + 1, g, f);
    }
  }

  lemma SortedMembers<T(!new)>(xs: seq<T>, key: T -> string, g: T -> seq<Finding>, f: Finding)
    ensures f in Each(SortBy(xs, key), 0, g) <==> exists x :: x in xs && f in g(x)
  {
    hide SortBy, Each;
    var sorted := SortBy(xs, key);
    MultisetMembers(sorted, xs);
    EachMembers(sorted, 0, g, f);
    if x :| x in xs && f in g(x) {
      assert x in sorted;
      var i :| 0 <= i < |sorted| && sorted[i] == x;
    }
  }

  lemma ContentMembers(o: seq<Field>, n: seq<Field>, location: string, f: Finding)
    ensures f in ContentFindings(o, n, location) <==> ContentBreaks(o, n, location, f)
  {
    hide SchemaFindings, Find, Each;
    EachMembers(o, 0, m => MediaFindings(m, n, location), f);
    forall i | 0 <= i < |o| ensures f in MediaFindings(o[i], n, location) <==> MediaBreaks(o[i], n, location, f) {
    }
    hide MediaFindings, MediaBreaks;
  }

  // ---------- parameters ----------

  // The merged list holds the last listed of every place and name, and nothing else.
  lemma MergedMembers(listed: seq<Parameter>, p: Parameter)
    ensures p in MergeParameters(listed) <==> LastListed(listed, p.position, p.name) == Some(p)
  {
    hide MergeParameters, LastListed, FindParameter;
    MergeDistinct(listed);
    MergedFindsLast(listed, p.position, p.name);
    if p in MergeParameters(listed) {
      FindParameterAt(MergeParameters(listed), p);
    }
  }

  ghost predicate ParameterIssue(m: Match, issue: Issue) {
    (issue.RemovedParameter? || issue.RequiredParameter?) && OperationIssue(m, issue)
  }

  function Old(m: Match): seq<Parameter> { MergeParameters(m.a.parameters + m.x.parameters) }

  function New(m: Match): seq<Parameter> { MergeParameters(m.b.parameters + m.y.parameters) }

  lemma OldAndNew(m: Match, position: string, name: string)
    ensures FindParameter(Old(m), position, name) == Declared(m.a, m.x, position, name)
    ensures FindParameter(New(m), position, name) == Declared(m.b, m.y, position, name)
    ensures Declared(m.a, m.x, position, name).Some? ==> IsNamed(Declared(m.a, m.x, position, name).value, position, name)
    ensures Declared(m.b, m.y, position, name).Some? ==> IsNamed(Declared(m.b, m.y, position, name).value, position, name)
  {
    hide MergeParameters, LastListed;
    MergedFindsLast(m.a.parameters + m.x.parameters, position, name);
    MergedFindsLast(m.b.parameters + m.y.parameters, position, name);
  }

  // What is said of the parameter of one place and name.
  ghost predicate NamedBreaks(m: Match, position: string, name: string, location: string, f: Finding) {
    || ParameterBreaks(m, position, name, location, f)
    || (f == Finding(location, RemovedParameter(position, name)) && OperationIssue(m, f.issue))
    || (f == Finding(location, RequiredParameter(position, name)) && OperationIssue(m, f.issue))
  }

  lemma OneParameter(m: Match, p: Parameter, location: string, f: Finding)
    requires Declared(m.a, m.x, p.position, p.name) == Some(p)
    ensures f in ParameterFindings(p, New(m), location) <==> NamedBreaks(m, p.position, p.name, location, f)
  {
    hide SchemaFindings, FindParameter, MergeParameters, LastListed;
    OldAndNew(m, p.position, p.name);
  }

  lemma ParametersMembers(m: Match, location: string, f: Finding)
    ensures var n := New(m);
            f in Each(Old(m), 0, p => ParameterFindings(p, n, location))
            <==> exists position, name :: NamedBreaks(m, position, name, location, f)
  {
    hide Each, ParameterFindings, MergeParameters, LastListed;
    var n := New(m);
    var g := (p: Parameter) => ParameterFindings(p, n, location);
    EachMembers(Old(m), 0, g, f);
    if f in Each(Old(m), 0, g) {
      var i :| 0 <= i < |Old(m)| && f in g(Old(m)[i]);
      var p := Old(m)[i];
      MergedMembers(m.a.parameters + m.x.parameters, p);
      OneParameter(m, p, location, f);
    }
    if position, name :| NamedBreaks(m, position, name, location, f) {
      assert Declared(m.a, m.x, position, name).Some? by { hide SchemaFindings; }
      var p := Declared(m.a, m.x, position, name).value;
      OldAndNew(m, position, name);
      hide NamedBreaks;
      OneParameter(m, p, location, f);
      MergedMembers(m.a.parameters + m.x.parameters, p);
      var i :| 0 <= i < |Old(m)| && Old(m)[i] == p;
    }
  }

  lemma AddedMembers(m: Match, location: string, f: Finding)
    ensures var o := Old(m);
            f in Each(New(m), 0, q => AddedParameterFindings(q, o, location))
            <==> f.location == location && f.issue.AddedRequiredParameter? && OperationIssue(m, f.issue)
  {
    hide Each, MergeParameters, LastListed, FindParameter;
    var o := Old(m);
    var g := (q: Parameter) => AddedParameterFindings(q, o, location);
    EachMembers(New(m), 0, g, f);
    if f in Each(New(m), 0, g) {
      var i :| 0 <= i < |New(m)| && f in g(New(m)[i]);
      MergedMembers(m.b.parameters + m.y.parameters, New(m)[i]);
      OldAndNew(m, New(m)[i].position, New(m)[i].name);
    }
    if f.location == location && f.issue.AddedRequiredParameter? && OperationIssue(m, f.issue) {
      OldAndNew(m, f.issue.position, f.issue.name);
      var q := Declared(m.b, m.y, f.issue.position, f.issue.name).value;
      MergedMembers(m.b.parameters + m.y.parameters, q);
      var i :| 0 <= i < |New(m)| && New(m)[i] == q;
      assert f in g(New(m)[i]);
    }
  }

  // ---------- bodies and responses ----------

  predicate IsBodyIssue(issue: Issue) { issue.AddedRequiredBody? || issue.RemovedBody? || issue.RequiredBody? }

  lemma BodyMembers(m: Match, location: string, f: Finding)
    ensures f in BodyFindings(m.x.body, m.y.body, location)
            <==> (f.location == location && IsBodyIssue(f.issue) && OperationIssue(m, f.issue))
                 || (m.x.body.Some? && m.y.body.Some?
                     && ContentBreaks(m.x.body.value.content, m.y.body.value.content, location + " request", f))
  {
    if m.x.body.Some? && m.y.body.Some? {
      ContentMembers(m.x.body.value.content, m.y.body.value.content, location + " request", f);
    }
    hide ContentFindings, ContentBreaks, LastListed;
  }

  ghost predicate ResponseBreaks(r: Response, others: seq<Response>, location: string, f: Finding) {
    match FindResponse(others, r.status)
    case None => f == Finding(location, RemovedResponse(r.status))
    case Some(s) => ContentBreaks(r.content, s.content, location + " response " + r.status, f)
  }

  lemma OneResponse(r: Response, others: seq<Response>, location: string, f: Finding)
    ensures f in ResponseFindings(r, others, location) <==> ResponseBreaks(r, others, location, f)
  {
    hide ContentFindings, ContentBreaks, FindResponse;
    if FindResponse(others, r.status).Some? {
      ContentMembers(r.content, FindResponse(others, r.status).value.content, location + " response " + r.status, f);
    }
  }

  lemma ResponsesMembers(m: Match, location: string, f: Finding)
    ensures var n := m.y.responses;
            f in Each(m.x.responses, 0, r => ResponseFindings(r, n, location))
            <==> exists r :: r in m.x.responses && ResponseBreaks(r, m.y.responses, location, f)
  {
    hide Each, ResponseFindings, ResponseBreaks;
    var n := m.y.responses;
    EachMembers(m.x.responses, 0, r => ResponseFindings(r, n, location), f);
    forall r ensures f in ResponseFindings(r, m.y.responses, location) <==> ResponseBreaks(r, m.y.responses, location, f) {
      OneResponse(r, m.y.responses, location, f);
    }
    if r :| r in m.x.responses && ResponseBreaks(r, m.y.responses, location, f) {
      var i :| 0 <= i < |m.x.responses| && m.x.responses[i] == r;
    }
  }

  lemma SomeResponse(m: Match, location: string, f: Finding)
    ensures (exists r :: r in m.x.responses && ResponseBreaks(r, m.y.responses, location, f))
            <==> (f.location == location && f.issue.RemovedResponse? && OperationIssue(m, f.issue))
                 || (exists r, s :: r in m.x.responses && FindResponse(m.y.responses, r.status) == Some(s)
                                    && ContentBreaks(r.content, s.content, location + " response " + r.status, f))
  {
    hide ContentBreaks, FindResponse;
    if f.location == location && f.issue.RemovedResponse? && OperationIssue(m, f.issue) {
      var r := FindResponse(m.x.responses, f.issue.status).value;
      assert r in m.x.responses && ResponseBreaks(r, m.y.responses, location, f);
    }
    if r :| r in m.x.responses && ResponseBreaks(r, m.y.responses, location, f) && FindResponse(m.y.responses, r.status).None? {
      assert exists i :: 0 <= i < |m.x.responses| && m.x.responses[i].status == r.status;
      assert FindResponse(m.x.responses, r.status).Some?;
    }
  }

  // ---------- one operation ----------

  lemma NamedOrBroken(m: Match, location: string, f: Finding)
    ensures (exists position, name :: NamedBreaks(m, position, name, location, f))
            <==> (f.location == location && ParameterIssue(m, f.issue))
                 || exists position, name :: ParameterBreaks(m, position, name, location, f)
  {
    hide ParameterBreaks, OperationIssue;
    if f.location == location && ParameterIssue(m, f.issue) {
      assert NamedBreaks(m, f.issue.position, f.issue.name, location, f);
    }
    if position, name :| ParameterBreaks(m, position, name, location, f) {
      assert NamedBreaks(m, position, name, location, f);
    }
  }

  lemma OperationMembers(m: Match, f: Finding)
    ensures var location := Upper(m.x.verb) + " " + m.a.path;
            f in OperationFindings(m.a.path, m.x, m.y, m.a.parameters, m.b.parameters) <==> OperationBreaks(m, location, f)
  {
    var location := Upper(m.x.verb) + " " + m.a.path;
    ParametersMembers(m, location, f);
    NamedOrBroken(m, location, f);
    AddedMembers(m, location, f);
    BodyMembers(m, location, f);
    ResponsesMembers(m, location, f);
    SomeResponse(m, location, f);
    OperationIssueKinds(m, f.issue);
    OperationParts(m, location, f);
    hide OperationFindings, Each, BodyFindings, ParameterBreaks, ContentBreaks, ResponseBreaks, NamedBreaks, FindResponse, OperationIssue, SecurityKept;
  }

  lemma OperationIssueKinds(m: Match, issue: Issue)
    ensures OperationIssue(m, issue) <==>
              || (issue.ChangedSecurity? && !SecurityKept(m.x.security, m.y.security))
              || ParameterIssue(m, issue) || (issue.AddedRequiredParameter? && OperationIssue(m, issue))
              || (IsBodyIssue(issue) && OperationIssue(m, issue)) || (issue.RemovedResponse? && OperationIssue(m, issue))
  {
    hide Same, FindResponse, LastListed;
  }

  lemma OperationParts(m: Match, location: string, f: Finding)
    requires location == Upper(m.x.verb) + " " + m.a.path
    ensures var o, n := Old(m), New(m);
            f in OperationFindings(m.a.path, m.x, m.y, m.a.parameters, m.b.parameters) <==>
              || (f == Finding(location, ChangedSecurity) && !SecurityKept(m.x.security, m.y.security))
              || f in Each(o, 0, p => ParameterFindings(p, n, location)) || f in Each(n, 0, q => AddedParameterFindings(q, o, location))
              || f in BodyFindings(m.x.body, m.y.body, location)
              || var s := m.y.responses; f in Each(m.x.responses, 0, r => ResponseFindings(r, s, location))
  {
    hide Each, BodyFindings, ParameterFindings, AddedParameterFindings, ResponseFindings, MergeParameters, SecurityKept, Upper;
  }

  // ---------- paths ----------

  lemma {:induction false} UpperAt(s: string, i: nat)
    requires i < |s|
    ensures |Upper(s)| == |s| && Upper(s)[i] == if 'a' <= s[i] <= 'z' then s[i] - 'a' + 'A' else s[i]
  {
    if i > 0 {
      UpperAt(s[1..], i - 1);
    } else if |s| > 1 {
      UpperAt(s[1..], 0);
    }
  }

  lemma UpperIs(s: string, t: string)
    requires |s| == |t| && forall i :: 0 <= i < |s| ==> 'a' <= s[i] <= 'z' && t[i] == s[i] - 'a' + 'A'
    ensures Upper(s) == t
  {
    if s == "" {
      assert Upper(s) == "";
    }
    forall i | 0 <= i < |s| ensures |Upper(s)| == |s| && Upper(s)[i] == t[i] {
      UpperAt(s, i);
    }
  }

  lemma VerbsShouted(verb: string)
    requires IsVerb(verb)
    ensures Upper(verb) == Shouted(verb)
  {
    hide Upper;
    if verb == "get" { UpperIs("get", "GET"); }
    else if verb == "put" { UpperIs("put", "PUT"); }
    else if verb == "post" { UpperIs("post", "POST"); }
    else if verb == "delete" { UpperIs("delete", "DELETE"); }
    else if verb == "options" { UpperIs("options", "OPTIONS"); }
    else if verb == "head" { UpperIs("head", "HEAD"); }
    else if verb == "patch" { UpperIs("patch", "PATCH"); }
    else { UpperIs("trace", "TRACE"); }
  }

  // What is said of one verb of a path that both documents have.
  ghost predicate VerbBreaks(verb: string, a: PathItem, b: PathItem, f: Finding) {
    match (FindOperation(a.operations, verb), FindOperation(b.operations, verb))
    case (None, _) => false
    case (Some(_), None) => f == Finding("", RemovedOperation(Shouted(verb), a.path))
    case (Some(x), Some(y)) => OperationBreaks(Match(a, x, b, y), Shouted(verb) + " " + a.path, f)
  }

  lemma VerbMembers(verb: string, a: PathItem, b: PathItem, f: Finding)
    requires IsVerb(verb)
    ensures f in VerbFindings(verb, a, b) <==> VerbBreaks(verb, a, b, f)
  {
    VerbsShouted(verb);
    var x, y := FindOperation(a.operations, verb), FindOperation(b.operations, verb);
    if x.Some? && y.Some? {
      OperationMembers(Match(a, x.value, b, y.value), f);
    }
    hide OperationFindings, OperationBreaks, FindOperation, Upper, Shouted, IsVerb;
  }

  ghost predicate PathBreaks(a: PathItem, n: seq<PathItem>, f: Finding) {
    match FindPath(n, a.path)
    case None => f == Finding("", RemovedPath(a.path))
    case Some(b) => exists verb :: IsVerb(verb) && VerbBreaks(verb, a, b, f)
  }

  lemma PathVerbs(a: PathItem, b: PathItem, f: Finding)
    ensures f in Each(HTTP_METHODS, 0, verb => VerbFindings(verb, a, b)) <==> exists verb :: IsVerb(verb) && VerbBreaks(verb, a, b, f)
  {
    hide Each, VerbFindings, VerbBreaks, IsVerb, HTTP_METHODS;
    var g := verb => VerbFindings(verb, a, b);
    EachMembers(HTTP_METHODS, 0, g, f);
    if f in Each(HTTP_METHODS, 0, g) {
      var i :| 0 <= i < |HTTP_METHODS| && f in g(HTTP_METHODS[i]);
      VerbsAre(HTTP_METHODS[i]);
      VerbMembers(HTTP_METHODS[i], a, b, f);
    }
    if verb :| IsVerb(verb) && VerbBreaks(verb, a, b, f) {
      VerbsAre(verb);
      var i :| 0 <= i < |HTTP_METHODS| && HTTP_METHODS[i] == verb;
      VerbMembers(verb, a, b, f);
      assert f in g(HTTP_METHODS[i]);
    }
  }

  lemma PathMembers(a: PathItem, n: seq<PathItem>, f: Finding)
    ensures f in PathFindings(a, n) <==> PathBreaks(a, n, f)
  {
    hide Each, VerbFindings, VerbBreaks, IsVerb, HTTP_METHODS, FindPath;
    if FindPath(n, a.path).Some? {
      PathVerbs(a, FindPath(n, a.path).value, f);
    }
  }

  lemma PathsMembers(o: seq<PathItem>, n: seq<PathItem>, f: Finding)
    ensures f in Each(SortBy(o, (a: PathItem) => a.path), 0, a => PathFindings(a, n)) <==> exists a :: a in o && PathBreaks(a, n, f)
  {
    hide SortBy, Each, PathFindings, PathBreaks;
    SortedMembers(o, (a: PathItem) => a.path, a => PathFindings(a, n), f);
    forall a ensures f in PathFindings(a, n) <==> PathBreaks(a, n, f) {
      PathMembers(a, n, f);
    }
  }

  // ---------- components ----------

  lemma ComponentsMembers(o: seq<Field>, n: seq<Field>, f: Finding)
    ensures f in Each(SortBy(o, (c: Field) => c.name), 0, c => ComponentFindings(c, n))
            <==> ComponentBreaks(o, n, f) || (f.location == "" && f.issue.RemovedSchema? && Has(o, f.issue.name) && !Has(n, f.issue.name))
  {
    hide SortBy, Each, SchemaFindings, Find;
    SortedMembers(o, (c: Field) => c.name, c => ComponentFindings(c, n), f);
    if ComponentBreaks(o, n, f) {
      var i :| 0 <= i < |o| && Has(n, o[i].name)
               && f in SchemaFindings(o[i].value, Find(n, o[i].name).value, "components.schemas." + o[i].name);
      assert o[i] in o && f in ComponentFindings(o[i], n);
    }
    if f.location == "" && f.issue.RemovedSchema? && Has(o, f.issue.name) && !Has(n, f.issue.name) {
      var i :| 0 <= i < |o| && o[i] == Field(f.issue.name, Find(o, f.issue.name).value);
      assert o[i] in o && f in ComponentFindings(o[i], n);
    }
  }

  lemma SchemesMembers(o: seq<Field>, n: seq<Field>, f: Finding)
    ensures f in Each(SortBy(o, (c: Field) => c.name), 0, c => SchemeFindings(c, n))
            <==> f.location == ""
                 && ((f.issue.RemovedSecurityScheme? && Has(o, f.issue.name) && !Has(n, f.issue.name))
                     || (f.issue.ChangedSecurityScheme? && exists i :: 0 <= i < |o| && o[i].name == f.issue.name && IsChanged(o[i], n)))
  {
    hide SortBy, Each, PyEq, Find;
    SortedMembers(o, (c: Field) => c.name, c => SchemeFindings(c, n), f);
    if f.location == "" && f.issue.RemovedSecurityScheme? && Has(o, f.issue.name) && !Has(n, f.issue.name) {
      var i :| 0 <= i < |o| && o[i] == Field(f.issue.name, Find(o, f.issue.name).value);
      assert o[i] in o && f in SchemeFindings(o[i], n);
    }
    if f.location == "" && f.issue.ChangedSecurityScheme? && exists i :: 0 <= i < |o| && o[i].name == f.issue.name && IsChanged(o[i], n) {
      var i :| 0 <= i < |o| && o[i].name == f.issue.name && IsChanged(o[i], n);
      assert o[i] in o && f in SchemeFindings(o[i], n);
    }
  }

  // ---------- the whole report ----------

  lemma SomePath(o: Document, n: Document, f: Finding)
    ensures (exists a :: a in o.paths && PathBreaks(a, n.paths, f))
            <==> (f.location == "" && (f.issue.RemovedPath? || f.issue.RemovedOperation?) && DocumentIssue(o, n, f.issue))
                 || exists verb, m :: IsMatch(o, n, verb, m) && OperationBreaks(m, Shouted(verb) + " " + m.a.path, f)
  {
    hide OperationBreaks, IsVerb, Shouted, FindPath, FindOperation;
    if a :| a in o.paths && PathBreaks(a, n.paths, f) {
      var found := FindPath(n.paths, a.path);
      if found.Some? {
        var b := found.value;
        var verb :| IsVerb(verb) && VerbBreaks(verb, a, b, f);
        var x, y := FindOperation(a.operations, verb), FindOperation(b.operations, verb);
        if y.Some? {
          assert IsMatch(o, n, verb, Match(a, x.value, b, y.value));
        } else {
          assert IsRemoved(o, n, verb, a, b);
        }
      }
    }
    if f.location == "" && f.issue.RemovedPath? && DocumentIssue(o, n, f.issue) {
      var a :| a in o.paths && a.path == f.issue.path;
      assert PathBreaks(a, n.paths, f);
    }
    if f.location == "" && f.issue.RemovedOperation? && DocumentIssue(o, n, f.issue) {
      var v, a, b :| IsRemoved(o, n, v, a, b) && f.issue.verb == Shouted(v) && f.issue.path == a.path;
      assert VerbBreaks(v, a, b, f);
      assert PathBreaks(a, n.paths, f);
    }
    if verb, m :| IsMatch(o, n, verb, m) && OperationBreaks(m, Shouted(verb) + " " + m.a.path, f) {
      assert VerbBreaks(verb, m.a, m.b, f);
      assert PathBreaks(m.a, n.paths, f);
    }
  }

  /** The report on two documents is, as a set, exactly their breaking changes. */
  lemma DocumentReportIsExact(o: Document, n: Document, f: Finding)
    ensures f in DocumentFindings(o, n) <==> IsBreaking(o, n, f)
  {
    PathsMembers(o.paths, n.paths, f);
    SomePath(o, n, f);
    ComponentsMembers(o.schemas, n.schemas, f);
    SchemesMembers(o.schemes, n.schemes, f);
    DocumentParts(o, n, f);
    DocumentIssueKinds(o, n, f.issue);
    hide DocumentFindings, Each, SortBy, PathBreaks, ComponentBreaks, OperationBreaks, IsMatch, SecurityKept, DocumentIssue, Has, IsChanged, Shouted;
  }

  lemma DocumentParts(o: Document, n: Document, f: Finding)
    ensures f in DocumentFindings(o, n) <==>
              || (f == Finding("", ChangedSecurity) && !SecurityKept(o.security, n.security))
              || (var ps := n.paths; f in Each(SortBy(o.paths, (a: PathItem) => a.path), 0, a => PathFindings(a, ps)))
              || (var ss := n.schemas; f in Each(SortBy(o.schemas, (c: Field) => c.name), 0, c => ComponentFindings(c, ss)))
              || (var ts := n.schemes; f in Each(SortBy(o.schemes, (c: Field) => c.name), 0, c => SchemeFindings(c, ts)))
  {
    hide Each, SortBy, PathFindings, ComponentFindings, SchemeFindings, SecurityKept;
  }

  lemma DocumentIssueKinds(o: Document, n: Document, issue: Issue)
    ensures DocumentIssue(o, n, issue) <==>
              || (issue.ChangedSecurity? && !SecurityKept(o.security, n.security))
              || ((issue.RemovedPath? || issue.RemovedOperation?) && DocumentIssue(o, n, issue))
              || (issue.RemovedSchema? && Has(o.schemas, issue.name) && !Has(n.schemas, issue.name))
              || (issue.RemovedSecurityScheme? && Has(o.schemes, issue.name) && !Has(n.schemes, issue.name))
              || (issue.ChangedSecurityScheme? && exists i :: 0 <= i < |o.schemes| && o.schemes[i].name == issue.name && IsChanged(o.schemes[i], n.schemes))
  {
    hide Same, Find, FindPath, FindOperation, IsVerb, Shouted;
  }
}
