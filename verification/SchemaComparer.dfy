/** The comparer itself: recursive methods appending to one shared list of findings. */
module SchemaComparer {
  import opened Wrappers
  import opened Json
  import opened AlternativeMatching
  import opened SchemaContract

  class FindingLog {
    var entries: seq<Finding>

    constructor ()
      ensures entries == []
    {
      entries := [];
    }

    method Append(location: string, issue: Issue)
      modifies this
      ensures entries == old(entries) + [Finding(location, issue)]
    {
      entries := entries + [Finding(location, issue)];
    }
  }

  lemma Associative<T>(a: seq<T>, b: seq<T>, c: seq<T>)
    ensures (a + b) + c == a + (b + c)
  {
  }

  method CompareSchema(previous: Json, current: Json, location: string, findings: FindingLog)
    modifies findings
    ensures findings.entries == old(findings.entries) + SchemaFindings(previous, current, location)
    decreases previous, 1, 0
  {
    hide KeywordFindings, NestedFindings, PyEq, ReferenceKept, Find;
    if !previous.Obj? || !current.Obj? {
      if !PyEq(previous, current) {
        findings.Append(location, ChangedShape);
      }
      return;
    }
    var o, n := previous.fields, current.fields;
    if !ReferenceKept(o, n) {
      findings.Append(location, ChangedReference);
      return;
    }
    CompareKeywords(o, n, location, findings);
    CompareNested(previous, current, location, findings);
    Associative(old(findings.entries), KeywordFindings(o, n, location), NestedFindings(previous, current, location));
  }

  method CompareNested(previous: Json, current: Json, location: string, findings: FindingLog)
    requires previous.Obj? && current.Obj?
    modifies findings
    ensures findings.entries == old(findings.entries) + NestedFindings(previous, current, location)
    decreases previous, 0, 1
  {
    hide PropertiesFindings, ItemsFindings, AlternativesFindings, AdditionalFindings;
    var o, n := previous.fields, current.fields;
    ghost var before := findings.entries;
    CompareProperties(o, n, location, findings);
    ghost var reported := PropertiesFindings(o, n, location);
    CompareItems(o, n, location, findings);
    Associative(before, reported, ItemsFindings(o, n, location));
    reported := reported + ItemsFindings(o, n, location);
    CompareAlternatives(o, n, "anyOf", location, findings);
    Associative(before, reported, AlternativesFindings(o, n, "anyOf", location));
    reported := reported + AlternativesFindings(o, n, "anyOf", location);
    CompareAlternatives(o, n, "oneOf", location, findings);
    Associative(before, reported, AlternativesFindings(o, n, "oneOf", location));
    reported := reported + AlternativesFindings(o, n, "oneOf", location);
    CompareAdditional(o, n, location, findings);
    Associative(before, reported, AdditionalFindings(o, n, location));
  }

  method CompareKeywords(o: seq<Field>, n: seq<Field>, location: string, findings: FindingLog)
    modifies findings
    ensures findings.entries == old(findings.entries) + KeywordFindings(o, n, location)
  {
    hide Find, Get, KeyFindings, EnumFindings, LimitFindings, RequiredNames, TypeKept, RequiredKept;
    ghost var before := findings.entries;
    if !TypeKept(o, n) {
      findings.Append(location, ChangedType(Get(o, "type"), Get(n, "type")));
    }
    ghost var reported := ReportIf(!TypeKept(o, n), location, ChangedType(Get(o, "type"), Get(n, "type")));
    CompareKey(o, n, "format", location, findings);
    Associative(before, reported, KeyFindings(o, n, "format", location));
    reported := reported + KeyFindings(o, n, "format", location);
    CompareKey(o, n, "const", location, findings);
    Associative(before, reported, KeyFindings(o, n, "const", location));
    reported := reported + KeyFindings(o, n, "const", location);
    CompareEnum(o, n, location, findings);
    Associative(before, reported, EnumFindings(o, n, location));
    reported := reported + EnumFindings(o, n, location);
    CompareLimits(o, n, location, findings);
    Associative(before, reported, LimitFindings(o, n, location));
    reported := reported + LimitFindings(o, n, location);
    CompareRequired(o, n, location, findings);
    Associative(before, reported, RequiredFindings(o, n, location));
  }

  method CompareRequired(o: seq<Field>, n: seq<Field>, location: string, findings: FindingLog)
    modifies findings
    ensures findings.entries == old(findings.entries) + RequiredFindings(o, n, location)
  {
    hide RequiredNames;
    if ArrayOrAbsent(o, "required") && ArrayOrAbsent(n, "required") {
      var added := RequiredNames(n) - RequiredNames(o);
      forall name | name in RequiredNames(n) ensures name in added || name in RequiredNames(o) {}
      if added != {} {
        findings.Append(location, AddedRequired(added));
      }
    }
  }

  method CompareKey(o: seq<Field>, n: seq<Field>, key: string, location: string, findings: FindingLog)
    modifies findings
    ensures findings.entries == old(findings.entries) + KeyFindings(o, n, key, location)
  {
    if Has(o, key) && !PyEq(Get(o, key), Get(n, key)) {
      findings.Append(location, ChangedKey(key));
    } else if !Has(o, key) && Has(n, key) {
      findings.Append(location, AddedKey(key));
    }
  }

  method CompareEnum(o: seq<Field>, n: seq<Field>, location: string, findings: FindingLog)
    modifies findings
    ensures findings.entries == old(findings.entries) + EnumFindings(o, n, location)
  {
    hide Find, RemovedItems;
    var previous, current := Get(o, "enum"), Get(n, "enum");
    if previous == Null && current.Arr? {
      findings.Append(location, AddedEnum);
    } else if previous.Arr? && current.Arr? {
      var removed := NotIn(previous.items, current.items);
      if removed != [] {
        findings.Append(location, NarrowedEnum(removed));
      }
    }
  }

  // [item for item in previous if item not in current]
  method NotIn(previous: seq<Json>, current: seq<Json>) returns (removed: seq<Json>)
    ensures removed == RemovedItems(previous, current)
  {
    hide PyIn, RemovedItems;
    removed := [];
    assert previous[0..] == previous;
    for i := 0 to |previous|
      invariant RemovedItems(previous, current) == removed + RemovedItems(previous[i..], current)
    {
      RemovedStep(previous, i, current, removed);
      if !PyIn(previous[i], current) {
        removed := removed + [previous[i]];
      }
    }
    RemovedEnd(previous, current, removed);
  }

  lemma RemovedStep(previous: seq<Json>, i: nat, current: seq<Json>, removed: seq<Json>)
    requires i < |previous|
    ensures removed + RemovedItems(previous[i..], current)
            == (if PyIn(previous[i], current) then removed else removed + [previous[i]]) + RemovedItems(previous[i + 1..], current)
  {
    hide PyIn;
    assert previous[i..][1..] == previous[i + 1..];
  }

  lemma RemovedEnd(previous: seq<Json>, current: seq<Json>, removed: seq<Json>)
    ensures removed + RemovedItems(previous[|previous|..], current) == removed
  {
    assert previous[|previous|..] == [];
  }

  method CompareLimits(o: seq<Field>, n: seq<Field>, location: string, findings: FindingLog)
    modifies findings
    ensures findings.entries == old(findings.entries) + LimitFindings(o, n, location)
  {
    hide PatternKept, UpperFindings, LowerFindings;
    CompareUpperLimits(o, n, location, findings);
    CompareLowerLimits(o, n, location, findings);
    Associative(old(findings.entries), UpperFindings(o, n, UPPER_LIMITS, 0, location),
      LowerFindings(o, n, LOWER_LIMITS, 0, location));
    if !PatternKept(o, n) {
      findings.Append(location, ChangedPattern);
    }
  }

  method CompareUpperLimits(o: seq<Field>, n: seq<Field>, location: string, findings: FindingLog)
    modifies findings
    ensures findings.entries == old(findings.entries) + UpperFindings(o, n, UPPER_LIMITS, 0, location)
  {
    hide UpperKept, LimitFinding, UPPER_LIMITS;
    for k := 0 to |UPPER_LIMITS|
      invariant old(findings.entries) + UpperFindings(o, n, UPPER_LIMITS, 0, location)
                == findings.entries + UpperFindings(o, n, UPPER_LIMITS, k, location)
    {
      var key := UPPER_LIMITS[k];
      Associative(findings.entries, LimitFinding(o, n, key, UpperKept(o, n, key), location),
        UpperFindings(o, n, UPPER_LIMITS, k + 1, location));
      CompareUpperLimit(o, n, key, location, findings);
    }
  }

  method CompareUpperLimit(o: seq<Field>, n: seq<Field>, key: string, location: string, findings: FindingLog)
    modifies findings
    ensures findings.entries == old(findings.entries) + LimitFinding(o, n, key, UpperKept(o, n, key), location)
  {
    hide Find, Get;
    var previous, current := Get(o, key), Get(n, key);
    if previous == Null && IsNumber(current) {
      findings.Append(location, AddedLimit(key, current));
    } else if IsNumber(previous) && IsNumber(current) && NumberOf(current) < NumberOf(previous) {
      findings.Append(location, TightenedLimit(key, previous, current));
    }
  }

  method CompareLowerLimits(o: seq<Field>, n: seq<Field>, location: string, findings: FindingLog)
    modifies findings
    ensures findings.entries == old(findings.entries) + LowerFindings(o, n, LOWER_LIMITS, 0, location)
  {
    hide LowerKept, LimitFinding, LOWER_LIMITS;
    for k := 0 to |LOWER_LIMITS|
      invariant old(findings.entries) + LowerFindings(o, n, LOWER_LIMITS, 0, location)
                == findings.entries + LowerFindings(o, n, LOWER_LIMITS, k, location)
    {
      var key := LOWER_LIMITS[k];
      Associative(findings.entries, LimitFinding(o, n, key, LowerKept(o, n, key), location),
        LowerFindings(o, n, LOWER_LIMITS, k + 1, location));
      CompareLowerLimit(o, n, key, location, findings);
    }
  }

  method CompareLowerLimit(o: seq<Field>, n: seq<Field>, key: string, location: string, findings: FindingLog)
    modifies findings
    ensures findings.entries == old(findings.entries) + LimitFinding(o, n, key, LowerKept(o, n, key), location)
  {
    hide Find, Get;
    var previous, current := Get(o, key), Get(n, key);
    if previous == Null && IsNumber(current) {
      findings.Append(location, AddedLimit(key, current));
    } else if IsNumber(previous) && IsNumber(current) && NumberOf(current) > NumberOf(previous) {
      findings.Append(location, TightenedLimit(key, previous, current));
    }
  }

  method CompareProperties(o: seq<Field>, n: seq<Field>, location: string, findings: FindingLog)
    modifies findings
    ensures findings.entries == old(findings.entries) + PropertiesFindings(o, n, location)
    decreases Obj(o), 0, 0
  {
    hide SchemaFindings, Find;
    var props, others := Properties(o), Properties(n);
    if props.Obj? && others.Obj? {
      for k := 0 to |props.fields|
        invariant old(findings.entries) + PropertyFindings(props, 0, others.fields, location)
                  == findings.entries + PropertyFindings(props, k, others.fields, location)
      {
        var f := props.fields[k];
        Associative(findings.entries, PropertyFinding(f, others.fields, location),
          PropertyFindings(props, k + 1, others.fields, location));
        var p := Find(others.fields, f.name);
        if p.None? {
          findings.Append(location, RemovedProperty(f.name));
        } else {
          CompareSchema(f.value, p.value, location + "." + f.name, findings);
        }
      }
    }
  }

  method CompareItems(o: seq<Field>, n: seq<Field>, location: string, findings: FindingLog)
    modifies findings
    ensures findings.entries == old(findings.entries) + ItemsFindings(o, n, location)
    decreases Obj(o), 0, 0
  {
    hide SchemaFindings;
    if Has(o, "items") && Has(n, "items") {
      CompareSchema(Find(o, "items").value, Find(n, "items").value, location + ".items", findings);
    }
  }

  // A new alternative with its position in the new list.
  datatype Candidate = Candidate(position: nat, value: Json)

  function Positions(candidates: seq<Candidate>): (r: seq<nat>)
    ensures |r| == |candidates| && forall i :: 0 <= i < |r| ==> r[i] == candidates[i].position
  {
    seq(|candidates|, i requires 0 <= i < |candidates| => candidates[i].position)
  }

  // next((candidate for candidate in available if its identity fits), None), as an index.
  method FirstWithIdentity(available: seq<Candidate>, identity: string) returns (q: Option<nat>)
    ensures q.Some? ==> q.value < |available| && Identity(available[q.value].value) == identity
    ensures forall i :: 0 <= i < (if q.Some? then q.value else |available|) ==> Identity(available[i].value) != identity
  {
    hide Identity;
    for i := 0 to |available|
      invariant forall j :: 0 <= j < i ==> Identity(available[j].value) != identity
    {
      if Identity(available[i].value) == identity {
        return Some(i);
      }
    }
    return None;
  }

  method CompareAlternatives(o: seq<Field>, n: seq<Field>, keyword: string, location: string, findings: FindingLog)
    modifies findings
    ensures findings.entries == old(findings.entries) + AlternativesFindings(o, n, keyword, location)
    decreases Obj(o), 0, 0
  {
    hide AlternativeFindings;
    var previous, current := Get(o, keyword), Get(n, keyword);
    if previous == Null {
      if current.Arr? {
        findings.Append(location, AddedAlternatives(keyword));
      }
    } else if !previous.Arr? || !current.Arr? {
      findings.Append(location, ChangedAlternatives(keyword));
    } else {
      MatchAlternatives(previous, current.items, keyword, location, findings);
    }
  }

  // What is left of the new alternatives once the old ones with identities `seen` are matched.
  ghost predicate Remaining(available: seq<Candidate>, seen: seq<string>, current: seq<Json>) {
    && Available(Positions(available), seen, Identities(current))
    && forall i :: 0 <= i < |available| ==>
         available[i].position < |current| && available[i].value == current[available[i].position]
  }

  lemma RemainingInitially(available: seq<Candidate>, current: seq<Json>)
    requires |available| == |current| && forall i :: 0 <= i < |current| ==> available[i] == Candidate(i, current[i])
    ensures Remaining(available, [], current)
  {
    hide Identity, Available;
    AvailableInitially(Positions(available), Identities(current));
  }

  lemma RemainingAfterMiss(available: seq<Candidate>, seen: seq<string>, current: seq<Json>, identity: string)
    requires Remaining(available, seen, current)
    requires forall i :: 0 <= i < |available| ==> Identity(available[i].value) != identity
    ensures Kth(Identities(current), identity, Count(seen, identity)) == None
    ensures Remaining(available, seen + [identity], current)
  {
    hide Identity, Available, Kth, Count;
    var ids := Identities(current);
    NoneAvailable(Positions(available), seen, ids, identity);
    AvailableAfterMiss(Positions(available), seen, ids, identity);
  }

  lemma RemainingAfterMatch(available: seq<Candidate>, seen: seq<string>, current: seq<Json>, identity: string, q: nat)
    requires Remaining(available, seen, current) && q < |available|
    requires Identity(available[q].value) == identity
    requires forall i :: 0 <= i < q ==> Identity(available[i].value) != identity
    ensures Kth(Identities(current), identity, Count(seen, identity)) == Some(available[q].position)
    ensures available[q].position < |current| && available[q].value == current[available[q].position]
    ensures Remaining(available[..q] + available[q + 1..], seen + [identity], current)
  {
    hide Identity, Available, Kth, Count;
    var ids, positions := Identities(current), Positions(available);
    var rest := available[..q] + available[q + 1..];
    FirstAvailable(positions, seen, ids, identity, q);
    AvailableAfterMatch(positions, seen, ids, q);
    assert Positions(rest) == positions[..q] + positions[q + 1..];
  }

  method MatchAlternatives(previous: Json, current: seq<Json>, keyword: string, location: string, findings: FindingLog)
    requires previous.Arr?
    modifies findings
    ensures findings.entries == old(findings.entries) + AlternativeFindings(previous, 0, current, keyword, location)
    decreases previous, 2
  {
    hide SchemaFindings, Identity, Remaining, Count, Kth, AlternativeLocation;
    var available := seq(|current|, i requires 0 <= i < |current| => Candidate(i, current[i]));
    ghost var ids := Identities(previous.items);
    RemainingInitially(available, current);
    assert ids[..0] == [];
    for k := 0 to |previous.items|
      invariant Remaining(available, ids[..k], current)
      invariant old(findings.entries) + AlternativeFindings(previous, 0, current, keyword, location)
                == findings.entries + AlternativeFindings(previous, k, current, keyword, location)
    {
      var identity := Identity(previous.items[k]);
      assert ids[..k + 1] == ids[..k] + [identity];
      Associative(findings.entries, AlternativeFinding(previous, k, current, keyword, location),
        AlternativeFindings(previous, k + 1, current, keyword, location));
      var q := FirstWithIdentity(available, identity);
      if q.None? {
        RemainingAfterMiss(available, ids[..k], current, identity);
        findings.Append(location, RemovedAlternative(keyword, identity));
      } else {
        RemainingAfterMatch(available, ids[..k], current, identity, q.value);
        var found := available[q.value];
        available := available[..q.value] + available[q.value + 1..];
        CompareSchema(previous.items[k], found.value, AlternativeLocation(location, keyword, k), findings);
      }
    }
  }

  method CompareAdditional(o: seq<Field>, n: seq<Field>, location: string, findings: FindingLog)
    modifies findings
    ensures findings.entries == old(findings.entries) + AdditionalFindings(o, n, location)
    decreases Obj(o), 0, 0
  {
    hide SchemaFindings;
    var previous, current := Additional(o), Additional(n);
    if previous != Bool(false) && current == Bool(false) {
      findings.Append(location, ForbadeAdditional);
    } else if !previous.Obj? && current.Obj? {
      findings.Append(location, ConstrainedAdditional);
    } else if previous.Obj? && current.Obj? {
      CompareSchema(previous, current, location + ".additionalProperties", findings);
    }
  }
}
