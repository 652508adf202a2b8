/** What is accepted as a run spec or a result summary, told by the values at all positions of the tree. */
module SpecTree {
  import opened Wrappers
  import opened Sorting
  import opened Json
  import opened CanonicalJson
  import opened SensitiveKeys
  import opened RunSpec
  import opened NormalizedSpec

  function Children(v: Value): (r: seq<Value>)
    ensures forall i :: 0 <= i < |r| ==> r[i] < v
  {
    match v
    case List(items) => items
    case Dict(entries) => seq(|entries|, i requires 0 <= i < |entries| => entries[i].value)
    case _ => []
  }

  // The value to which a path of positions leads.
  function At(v: Value, path: seq<nat>): Option<Value>
    decreases |path|
  {
    if path == [] then Some(v)
    else if path[0] < |Children(v)| then At(Children(v)[path[0]], path[1..])
    else None
  }

  // A JSON type, and an object only with string keys that name no credential.
  predicate IsSafe(w: Value) {
    && !w.Other?
    && (w.Dict? ==> forall k :: 0 <= k < |w.entries| ==> w.entries[k].key.Name? && !IsSensitive(w.entries[k].key.s))
  }

  // All values are safe and lie at most so many levels down.
  ghost predicate SafeWithin(v: Value, levels: int) {
    forall path :: At(v, path).Some? ==> |path| <= levels && IsSafe(At(v, path).value)
  }

  // Each position of the tree once.
  ghost predicate Enumerates(v: Value, paths: seq<seq<nat>>) {
    && (forall i, j :: 0 <= i < j < |paths| ==> paths[i] != paths[j])
    && forall path :: path in paths <==> At(v, path).Some?
  }

  // ---------- levels and types ----------

  ghost predicate SafeBelow(v: Value, levels: int) { forall i :: 0 <= i < |Children(v)| ==> SafeWithin(Children(v)[i], levels) }

  lemma SafeStep(v: Value, levels: int)
    ensures SafeWithin(v, levels) <==> levels >= 0 && IsSafe(v) && SafeBelow(v, levels - 1)
  {
    hide IsSafe, Children;
    if SafeWithin(v, levels) {
      assert At(v, []) == Some(v);
      forall i, path | 0 <= i < |Children(v)| && At(Children(v)[i], path).Some?
        ensures |path| <= levels - 1 && IsSafe(At(Children(v)[i], path).value)
      {
        assert ([i] + path)[1..] == path;
        assert At(v, [i] + path) == At(Children(v)[i], path);
      }
    }
    if levels >= 0 && IsSafe(v) && SafeBelow(v, levels - 1) {
      forall path | At(v, path).Some? ensures |path| <= levels && IsSafe(At(v, path).value) {
        if path != [] {
          assert SafeWithin(Children(v)[path[0]], levels - 1);
          assert At(Children(v)[path[0]], path[1..]) == At(v, path);
        }
      }
    }
  }

  ghost predicate Admits(v: Value, valueOf: string -> real, levels: int) {
    ToJson(v, valueOf).Some? && Admissible(ToJson(v, valueOf).value, levels)
  }

  lemma {:induction false} ItemsConvert(items: seq<Value>, valueOf: string -> real)
    ensures ToItems(items, valueOf).Some? <==> forall i :: 0 <= i < |items| ==> ToJson(items[i], valueOf).Some?
    ensures ToItems(items, valueOf).Some? ==>
              forall i :: 0 <= i < |items| ==> ToJson(items[i], valueOf) == Some(ToItems(items, valueOf).value[i])
  {
    if items != [] {
      ItemsConvert(items[1..], valueOf);
      hide ToJson;
      assert forall i :: 0 < i < |items| ==> items[i] == items[1..][i - 1];
      assert forall i :: 0 <= i < |items[1..]| ==> items[1..][i] == items[i + 1];
    }
  }

  lemma {:induction false} EntriesConvert(entries: seq<Entry>, valueOf: string -> real)
    ensures ToFields(entries, valueOf).Some? <==> forall i :: 0 <= i < |entries| ==> ToField(entries[i], valueOf).Some?
    ensures ToFields(entries, valueOf).Some? ==>
              forall i :: 0 <= i < |entries| ==> ToField(entries[i], valueOf) == Some(ToFields(entries, valueOf).value[i])
  {
    if entries != [] {
      EntriesConvert(entries[1..], valueOf);
      hide ToField;
      assert forall i :: 0 < i < |entries| ==> entries[i] == entries[1..][i - 1];
      assert forall i :: 0 <= i < |entries[1..]| ==> entries[1..][i] == entries[i + 1];
    }
  }

  lemma {:induction false} SafeIffAdmitted(v: Value, valueOf: string -> real, levels: int)
    ensures SafeWithin(v, levels) <==> Admits(v, valueOf, levels)
    decreases v
  {
    hide SafeWithin, Admits, IsSafe, Children;
    SafeStep(v, levels);
    AdmitsStep(v, valueOf, levels);
    forall i | 0 <= i < |Children(v)| ensures SafeWithin(Children(v)[i], levels - 1) <==> Admits(Children(v)[i], valueOf, levels - 1) {
      SafeIffAdmitted(Children(v)[i], valueOf, levels - 1);
    }
  }

  lemma AdmitsStep(v: Value, valueOf: string -> real, levels: int)
    ensures Admits(v, valueOf, levels) <==>
              levels >= 0 && IsSafe(v) && forall i :: 0 <= i < |Children(v)| ==> Admits(Children(v)[i], valueOf, levels - 1)
  {
    hide Admits, IsSensitive;
    match v
    case List(items) =>
      ListAdmits(v, valueOf, levels);
      assert Children(v) == items && IsSafe(v);
    case Dict(entries) =>
      DictAdmits(v, valueOf, levels);
      var children := Children(v);
      assert |children| == |entries|;
      assert forall i :: 0 <= i < |entries| ==> entries[i].value == children[i];
      assert forall i :: 0 <= i < |children| ==> children[i] == entries[i].value;
    case _ => AtomAdmits(v, valueOf, levels);
  }

  lemma AtomAdmits(v: Value, valueOf: string -> real, levels: int)
    requires !v.List? && !v.Dict?
    ensures Admits(v, valueOf, levels) <==> levels >= 0 && IsSafe(v)
    ensures Children(v) == []
  {
  }

  lemma ListAdmits(v: Value, valueOf: string -> real, levels: int)
    requires v.List?
    ensures Admits(v, valueOf, levels) <==> levels >= 0 && forall i :: 0 <= i < |v.items| ==> Admits(v.items[i], valueOf, levels - 1)
  {
    ItemsConvert(v.items, valueOf);
    var js := ToItems(v.items, valueOf);
    if js.Some? {
      assert ToJson(v, valueOf) == Some(Arr(js.value));
      assert Admissible(Arr(js.value), levels) <==> levels >= 0 && AdmissibleItems(js.value, levels - 1);
      hide ToJson, Admissible, ToItems;
      forall i | 0 <= i < |v.items| ensures Admits(v.items[i], valueOf, levels - 1) <==> Admissible(js.value[i], levels - 1) {
        assert ToJson(v.items[i], valueOf) == Some(js.value[i]);
      }
    }
  }

  lemma DictAdmits(v: Value, valueOf: string -> real, levels: int)
    requires v.Dict?
    ensures Admits(v, valueOf, levels) <==>
              levels >= 0 && IsSafe(v) && forall i :: 0 <= i < |v.entries| ==> Admits(v.entries[i].value, valueOf, levels - 1)
  {
    hide IsSensitive;
    EntriesConvert(v.entries, valueOf);
    var fields := ToFields(v.entries, valueOf);
    forall i | 0 <= i < |v.entries| ensures AdmitsEntry(v.entries[i], valueOf, levels - 1) <==>
      v.entries[i].key.Name? && !IsSensitive(v.entries[i].key.s) && Admits(v.entries[i].value, valueOf, levels - 1)
    {
    }
    if fields.Some? {
      assert ToJson(v, valueOf) == Some(Obj(fields.value));
      assert Admissible(Obj(fields.value), levels) <==> levels >= 0 && AdmissibleFields(fields.value, levels - 1);
      hide ToJson, Admissible, ToFields, ToField, AdmissibleField;
      forall i | 0 <= i < |v.entries| ensures AdmitsEntry(v.entries[i], valueOf, levels - 1) <==> AdmissibleField(fields.value[i], levels - 1) {
        assert ToField(v.entries[i], valueOf) == Some(fields.value[i]);
      }
    }
  }

  ghost predicate AdmitsEntry(e: Entry, valueOf: string -> real, levels: int) {
    ToField(e, valueOf).Some? && AdmissibleField(ToField(e, valueOf).value, levels)
  }

  // ---------- the number of values ----------

  function Under(i: nat, paths: seq<seq<nat>>): (r: seq<seq<nat>>)
    ensures |r| == |paths| && forall k :: 0 <= k < |r| ==> r[k] == [i] + paths[k]
  {
    seq(|paths|, k requires 0 <= k < |paths| => [i] + paths[k])
  }

  function Paths(v: Value): seq<seq<nat>>
    decreases v, 1, 0
  {
    [[]] + PathsFrom(v, 0)
  }

  // The paths into the children from the k-th on.
  function PathsFrom(v: Value, k: nat): seq<seq<nat>>
    requires k <= |Children(v)|
    decreases v, 0, |Children(v)| - k
  {
    if k == |Children(v)| then [] else Under(k, Paths(Children(v)[k])) + PathsFrom(v, k + 1)
  }

  lemma {:induction false} PathsEnumerate(v: Value)
    ensures Enumerates(v, Paths(v))
    decreases v, 1, 0
  {
    PathsFromEnumerate(v, 0);
    assert Paths(v) == [[]] + PathsFrom(v, 0) && At(v, []) == Some(v);
    hide Paths, PathsFrom, At;
    WithRoot(v, PathsFrom(v, 0));
  }

  lemma WithRoot(v: Value, rest: seq<seq<nat>>)
    requires At(v, []).Some?
    requires forall path :: path in rest <==> path != [] && At(v, path).Some?
    requires forall i, j :: 0 <= i < j < |rest| ==> rest[i] != rest[j]
    ensures Enumerates(v, [[]] + rest)
  {
    hide At;
    DistinctParts([[]], rest);
  }

  lemma {:induction false} PathsFromEnumerate(v: Value, k: nat)
    requires k <= |Children(v)|
    ensures forall path :: path in PathsFrom(v, k) <==> path != [] && k <= path[0] && At(v, path).Some?
    ensures forall i, j :: 0 <= i < j < |PathsFrom(v, k)| ==> PathsFrom(v, k)[i] != PathsFrom(v, k)[j]
    decreases v, 0, |Children(v)| - k
  {
    hide Children;
    if k < |Children(v)| {
      var child := Children(v)[k];
      PathsEnumerate(child);
      PathsFromEnumerate(v, k + 1);
      var own, rest := Under(k, Paths(child)), PathsFrom(v, k + 1);
      hide Paths, PathsFrom;
      forall path ensures path in own <==> path != [] && path[0] == k && At(v, path).Some? {
        if path in own {
          var i :| 0 <= i < |own| && own[i] == path;
          assert path == [k] + Paths(child)[i] && path[1..] == Paths(child)[i];
          assert Paths(child)[i] in Paths(child);
        }
        if path != [] && path[0] == k && At(v, path).Some? {
          assert path[1..] in Paths(child);
          var i :| 0 <= i < |Paths(child)| && Paths(child)[i] == path[1..];
          assert own[i] == [k] + path[1..] == path;
        }
      }
      forall i, j | 0 <= i < j < |own| ensures own[i] != own[j] {
        assert own[i][1..] == Paths(child)[i] && own[j][1..] == Paths(child)[j];
      }
      DistinctParts(own, rest);
      PathsFromStep(v, k);
    }
  }

  lemma PathsFromStep(v: Value, k: nat)
    requires k <= |Children(v)|
    ensures PathsFrom(v, k) == if k == |Children(v)| then [] else Under(k, Paths(Children(v)[k])) + PathsFrom(v, k + 1)
  {
  }

  lemma PathsFromLength(v: Value, k: nat)
    requires k < |Children(v)|
    ensures |PathsFrom(v, k)| == |Paths(Children(v)[k])| + |PathsFrom(v, k + 1)|
  {
    hide Paths, Children;
  }

  lemma DistinctParts<T>(a: seq<T>, b: seq<T>)
    requires forall i, j :: 0 <= i < j < |a| ==> a[i] != a[j]
    requires forall i, j :: 0 <= i < j < |b| ==> b[i] != b[j]
    requires forall x :: x in a ==> x !in b
    ensures forall i, j :: 0 <= i < j < |a + b| ==> (a + b)[i] != (a + b)[j]
  {
    forall i, j | 0 <= i < j < |a + b| ensures (a + b)[i] != (a + b)[j] {
      if i < |a| <= j {
        assert a[i] in a && b[j - |a|] in b;
      }
    }
  }

  lemma SameLength(v: Value, a: seq<seq<nat>>, b: seq<seq<nat>>)
    requires Enumerates(v, a) && Enumerates(v, b)
    ensures |a| == |b|
  {
    MemberCount(a);
    MemberCount(b);
    assert (set path | path in a) == (set path | path in b);
  }

  lemma {:induction false} SizeIsPaths(v: Value, valueOf: string -> real)
    requires ToJson(v, valueOf).Some?
    ensures Size(ToJson(v, valueOf).value) == |Paths(v)|
    decreases v, 1, 0
  {
    match v
    case List(items) =>
      ItemsConvert(items, valueOf);
      SizeOfItemsIsPaths(v, 0, valueOf);
      assert items[0..] == items;
    case Dict(entries) =>
      EntriesConvert(entries, valueOf);
      SizeOfFieldsIsPaths(v, 0, valueOf);
      var fields := ToFields(entries, valueOf).value;
      assert fields[0..] == fields;
    case _ =>
  }

  lemma {:induction false} SizeOfItemsIsPaths(v: Value, k: nat, valueOf: string -> real)
    requires v.List? && ToItems(v.items, valueOf).Some? && k <= |v.items|
    ensures SizeOfItems(ToItems(v.items, valueOf).value[k..]) == |PathsFrom(v, k)|
    decreases v, 0, |v.items| - k
  {
    var js := ToItems(v.items, valueOf).value;
    if k < |v.items| {
      ItemsConvert(v.items, valueOf);
      SizeIsPaths(v.items[k], valueOf);
      SizeOfItemsIsPaths(v, k + 1, valueOf);
      hide Size, Paths, ToJson, ToItems;
      assert js[k..][1..] == js[k + 1..];
    }
  }

  lemma {:induction false} SizeOfFieldsIsPaths(v: Value, k: nat, valueOf: string -> real)
    requires v.Dict? && ToFields(v.entries, valueOf).Some? && k <= |v.entries|
    ensures SizeOfFields(ToFields(v.entries, valueOf).value[k..]) == |PathsFrom(v, k)|
    decreases v, 0, |v.entries| - k
  {
    var fields := ToFields(v.entries, valueOf).value;
    if k < |v.entries| {
      EntriesConvert(v.entries, valueOf);
      assert ToField(v.entries[k], valueOf) == Some(fields[k]);
      SizeIsPaths(v.entries[k].value, valueOf);
      SizeOfFieldsIsPaths(v, k + 1, valueOf);
      hide Size, Paths, ToJson, ToFields;
      assert fields[k..][1..] == fields[k + 1..];
      assert Children(v)[k] == v.entries[k].value;
    }
  }

  // ---------- the walk ----------

  /** The walk accepts exactly the trees whose positions are few and shallow enough and hold safe values, and counts the positions. */
  lemma WalkAcceptsTree(l: Limits, v: Value, paths: seq<seq<nat>>)
    requires Enumerates(v, paths)
    ensures Walk(l, v, 0, 0).Success? <==> |paths| <= l.nodes && SafeWithin(v, l.depth)
    ensures Walk(l, v, 0, 0).Success? ==> Walk(l, v, 0, 0).value == |paths|
  {
    var valueOf: string -> real := _ => 0.0;
    hide SafeWithin;
    WalkAccepts(l, v, 0, 0, valueOf);
    SafeIffAdmitted(v, valueOf, l.depth);
    PathsEnumerate(v);
    SameLength(v, paths, Paths(v));
    hide Walk, ToJson, Size, Admissible, Paths, Enumerates;
    if ToJson(v, valueOf).Some? {
      SizeIsPaths(v, valueOf);
    }
  }

  // ---------- why the walk refuses ----------

  predicate HasUnnamedKey(v: Value, path: seq<nat>, k: nat) {
    At(v, path).Some? && At(v, path).value.Dict? && k < |At(v, path).value.entries| && At(v, path).value.entries[k].key.NotAString?
  }

  predicate HasCredential(v: Value, path: seq<nat>, k: nat) {
    && At(v, path).Some? && At(v, path).value.Dict? && k < |At(v, path).value.entries|
    && At(v, path).value.entries[k].key.Name? && IsSensitive(At(v, path).value.entries[k].key.s)
  }

  // What there is in a tree, begun at this depth, to complain about; total is the number of values.
  ghost predicate Justifies(l: Limits, v: Value, depth: nat, total: nat, e: SpecError) {
    match e
    case ValueType => exists path :: At(v, path) == Some(Other)
    case KeyType => exists path, k :: HasUnnamedKey(v, path, k)
    case Credentials => exists path, k :: HasCredential(v, path, k)
    case StructuralLimits => total > l.nodes || exists path :: At(v, path).Some? && depth + |path| > l.depth
    case _ => false
  }

  lemma JustifiesParent(l: Limits, v: Value, i: nat, depth: nat, part: nat, total: nat, e: SpecError)
    requires i < |Children(v)| && Justifies(l, Children(v)[i], depth + 1, part, e) && part <= total
    ensures Justifies(l, v, depth, total, e)
  {
    var child := Children(v)[i];
    forall path ensures At(v, [i] + path) == At(child, path) {
      assert ([i] + path)[1..] == path;
    }
    hide At, Children, IsSensitive;
    match e
    case KeyType =>
      var path, k :| HasUnnamedKey(child, path, k);
      assert HasUnnamedKey(v, [i] + path, k);
    case Credentials =>
      var path, k :| HasCredential(child, path, k);
      assert HasCredential(v, [i] + path, k);
    case _ =>
  }

  lemma JustifiesHere(l: Limits, v: Value, depth: nat, total: nat, k: nat)
    ensures v == Other ==> Justifies(l, v, depth, total, ValueType)
    ensures v.Dict? && k < |v.entries| && v.entries[k].key.NotAString? ==> Justifies(l, v, depth, total, KeyType)
    ensures v.Dict? && k < |v.entries| && v.entries[k].key.Name? && IsSensitive(v.entries[k].key.s) ==> Justifies(l, v, depth, total, Credentials)
    ensures depth > l.depth || total > l.nodes ==> Justifies(l, v, depth, total, StructuralLimits)
  {
    hide IsSensitive;
    assert At(v, []) == Some(v);
    assert v.Dict? && k < |v.entries| && v.entries[k].key.NotAString? ==> HasUnnamedKey(v, [], k);
    assert v.Dict? && k < |v.entries| && v.entries[k].key.Name? && IsSensitive(v.entries[k].key.s) ==> HasCredential(v, [], k);
  }

  lemma WalkCounts(l: Limits, v: Value, depth: nat, nodes: nat)
    requires Walk(l, v, depth, nodes).Success?
    ensures Walk(l, v, depth, nodes).value == nodes + |Paths(v)|
  {
    var valueOf: string -> real := _ => 0.0;
    WalkAccepts(l, v, depth, nodes, valueOf);
    hide Walk, ToJson, Size, Admissible, Paths;
    SizeIsPaths(v, valueOf);
  }

  // One step of each of the walks.
  lemma WalkSteps(l: Limits, v: Value, depth: nat, nodes: nat)
    ensures Walk(l, v, depth, nodes) ==
            if nodes + 1 > l.nodes || depth > l.depth then Failure(StructuralLimits)
            else if v.List? then WalkItems(l, v.items[0..], depth, nodes + 1)
            else if v.Dict? then WalkEntries(l, v.entries[0..], depth, nodes + 1)
            else if v.Other? then Failure(ValueType) else Success(nodes + 1)
    ensures |Paths(v)| == 1 + |PathsFrom(v, 0)|
  {
    assert v.List? ==> v.items[0..] == v.items;
    assert v.Dict? ==> v.entries[0..] == v.entries;
    hide WalkItems, WalkEntries, PathsFrom;
  }

  lemma WalkItemsSteps(l: Limits, items: seq<Value>, k: nat, depth: nat, nodes: nat)
    requires k <= |items|
    ensures WalkItems(l, items[k..], depth, nodes) ==
            if k == |items| then Success(nodes)
            else match Walk(l, items[k], depth + 1, nodes)
                 case Failure(e) => Failure(e)
                 case Success(n) => WalkItems(l, items[k + 1..], depth, n)
  {
    assert k < |items| ==> items[k..][0] == items[k] && items[k..][1..] == items[k + 1..];
    hide Walk;
  }

  lemma WalkEntriesSteps(l: Limits, entries: seq<Entry>, k: nat, depth: nat, nodes: nat)
    requires k <= |entries|
    ensures WalkEntries(l, entries[k..], depth, nodes) ==
            if k == |entries| then Success(nodes)
            else if entries[k].key.NotAString? then Failure(KeyType)
            else if IsSensitive(entries[k].key.s) then Failure(Credentials)
            else match Walk(l, entries[k].value, depth + 1, nodes)
                 case Failure(e) => Failure(e)
                 case Success(n) => WalkEntries(l, entries[k + 1..], depth, n)
  {
    assert k < |entries| ==> entries[k..][0] == entries[k] && entries[k..][1..] == entries[k + 1..];
    hide Walk, IsSensitive;
  }

  /** Whatever the walk complains about is there: a value of no JSON type, a key that is no string, a credential, or too many values or levels. */
  lemma {:induction false} RefusalIsJustified(l: Limits, v: Value, depth: nat, nodes: nat)
    requires Walk(l, v, depth, nodes).Failure?
    ensures Justifies(l, v, depth, nodes + |Paths(v)|, Walk(l, v, depth, nodes).error)
    decreases v, 1, 0
  {
    hide Walk, WalkItems, WalkEntries, Paths, PathsFrom, Justifies, IsSensitive;
    WalkSteps(l, v, depth, nodes);
    JustifiesHere(l, v, depth, nodes + |Paths(v)|, 0);
    if nodes + 1 <= l.nodes && depth <= l.depth {
      match v
      case List(items) => RefusedItems(l, v, 0, depth, nodes + 1);
      case Dict(entries) => RefusedEntries(l, v, 0, depth, nodes + 1);
      case _ =>
    }
  }

  lemma {:induction false} RefusedItems(l: Limits, v: Value, k: nat, depth: nat, nodes: nat)
    requires v.List? && k <= |v.items| && WalkItems(l, v.items[k..], depth, nodes).Failure?
    ensures Justifies(l, v, depth, nodes + |PathsFrom(v, k)|, WalkItems(l, v.items[k..], depth, nodes).error)
    decreases v, 0, |v.items| - k
  {
    hide Walk, WalkItems, Paths, PathsFrom, Justifies;
    WalkItemsSteps(l, v.items, k, depth, nodes);
    PathsFromLength(v, k);
    var item := v.items[k];
    var first := Walk(l, item, depth + 1, nodes);
    if first.Failure? {
      RefusalIsJustified(l, item, depth + 1, nodes);
      JustifiesParent(l, v, k, depth, nodes + |Paths(item)|, nodes + |PathsFrom(v, k)|, first.error);
    } else {
      WalkCounts(l, item, depth + 1, nodes);
      RefusedItems(l, v, k + 1, depth, first.value);
    }
  }

  lemma EntryChild(v: Value, k: nat)
    requires v.Dict? && k < |v.entries|
    ensures |Children(v)| == |v.entries| && Children(v)[k] == v.entries[k].value
  {
  }

  lemma {:induction false} RefusedEntries(l: Limits, v: Value, k: nat, depth: nat, nodes: nat)
    requires v.Dict? && k <= |v.entries| && WalkEntries(l, v.entries[k..], depth, nodes).Failure?
    ensures Justifies(l, v, depth, nodes + |PathsFrom(v, k)|, WalkEntries(l, v.entries[k..], depth, nodes).error)
    decreases v, 0, |v.entries| - k
  {
    hide Walk, WalkEntries, Paths, PathsFrom, Justifies, IsSensitive, Children;
    WalkEntriesSteps(l, v.entries, k, depth, nodes);
    EntryChild(v, k);
    PathsFromLength(v, k);
    JustifiesHere(l, v, depth, nodes + |PathsFrom(v, k)|, k);
    var child, key := Children(v)[k], v.entries[k].key;
    if key.Name? && !IsSensitive(key.s) {
      var first := Walk(l, child, depth + 1, nodes);
      if first.Failure? {
        RefusalIsJustified(l, child, depth + 1, nodes);
        JustifiesParent(l, v, k, depth, nodes + |Paths(child)|, nodes + |PathsFrom(v, k)|, first.error);
      } else {
        WalkCounts(l, child, depth + 1, nodes);
        RefusedEntries(l, v, k + 1, depth, first.value);
      }
    }
  }

  // ---------- the limits of the program ----------

  /** A character takes one byte below 128, two below 2,048, three below 65,536 and four otherwise (RFC 3629 section 3). */
  lemma {:induction false} Utf8Bytes(a: string, c: char, b: string)
    ensures Utf8Size("") == 0
    ensures Utf8Size(a + [c] + b) == Utf8Size(a) + Utf8Size(b)
              + if c as int < 128 then 1 else if c as int < 2_048 then 2 else if c as int < 65_536 then 3 else 4
    decreases |a|
  {
    var whole := a + [c] + b;
    if a == "" {
      assert whole[0] == c && whole[1..] == b;
    } else {
      Utf8Bytes(a[1..], c, b);
      assert whole[0] == a[0] && whole[1..] == a[1..] + [c] + b;
    }
  }

  // An integer of at most 4,300 digits, or a number with a fraction or an exponent.
  predicate IsShortNumber(text: string) {
    || '.' in text || 'e' in text || 'E' in text
    || |text| <= 4_300 || (|text| == 4_301 && text[0] == '-')
  }

  lemma ShortNumbers(text: string)
    ensures IsConvertible(text) <==> IsShortNumber(text)
  {
    if c :| c in text && c in {'.', 'e', 'E'} {
      var i :| 0 <= i < |text| && text[i] == c;
    }
  }

  /**
   * A run spec is accepted exactly when it is an object of at most 20,000 safe values on 20 levels below it, and
   * its canonical encoding, all numbers printable, has at most 262,144 bytes; of a result summary the limits
   * are 5,000 values, 10 levels and 65,536 bytes.
   */
  lemma ProgramLimits(v: Value, paths: seq<seq<nat>>, valueOf: string -> real)
    requires Enumerates(v, paths)
    ensures IsAccepted(RUN_SPEC, v, valueOf) <==>
              v.Dict? && |paths| <= 20_000 && SafeWithin(v, 20) && IsPrintable(v, valueOf) && Utf8Size(Encode(ToJson(v, valueOf).value)) <= 262_144
    ensures IsAccepted(RESULT_SUMMARY, v, valueOf) <==>
              v.Dict? && |paths| <= 5_000 && SafeWithin(v, 10) && IsPrintable(v, valueOf) && Utf8Size(Encode(ToJson(v, valueOf).value)) <= 65_536
  {
    hide Printed, NumbersConvertible, Encode, Utf8Size, Enumerates, SafeWithin, Size, Admissible, Paths;
    SafeIffAdmitted(v, valueOf, 20);
    SafeIffAdmitted(v, valueOf, 10);
    assert ToJson(v, valueOf).Some? ==> (ToJson(v, valueOf).value.Obj? <==> v.Dict?);
    hide ToJson;
    PathsEnumerate(v);
    SameLength(v, paths, Paths(v));
    if ToJson(v, valueOf).Some? {
      SizeIsPaths(v, valueOf);
    }
  }

  ghost predicate IsAccepted(l: Limits, v: Value, valueOf: string -> real) {
    ToJson(v, valueOf).Some? && IsAcceptable(l, ToJson(v, valueOf).value, valueOf)
  }

  ghost predicate IsPrintable(v: Value, valueOf: string -> real) {
    && ToJson(v, valueOf).Some? && Printed(ToJson(v, valueOf).value, valueOf) && NumbersConvertible(ToJson(v, valueOf).value)
  }
}
