/** Normalizing a run spec: one walk with a shared node counter, then the canonical encoding and its digest. */
module RunSpec {
  import opened Wrappers
  import opened Json
  import opened SensitiveKeys

  // A Python value as a caller may pass it; numbers by their printed form, "NaN" among them.
  datatype Value =
    | Nothing
    | Boolean(b: bool)
    | Number(text: string)
    | Text(s: string)
    | List(items: seq<Value>)
    | Dict(entries: seq<Entry>)
    | Other

  datatype Entry = Entry(key: Key, value: Value)

  datatype Key = Name(s: string) | NotAString

  datatype Limits = Limits(nodes: nat, depth: nat, bytes: nat)

  const RUN_SPEC := Limits(20_000, 20, 256 * 1024)
  const RESULT_SUMMARY := Limits(5_000, 10, 64 * 1024)

  datatype SpecError = StructuralLimits | KeyType | Credentials | ValueType | NumberForm | TooLong | NotAnObject

  // ---------- the walk ----------

  // The node count after visiting a value, or the first error.
  function Walk(l: Limits, v: Value, depth: nat, nodes: nat): Result<nat, SpecError>
    decreases v
  {
    if nodes + 1 > l.nodes || depth > l.depth then Failure(StructuralLimits)
    else
      match v
      case List(items) => WalkItems(l, items, depth, nodes + 1)
      case Dict(entries) => WalkEntries(l, entries, depth, nodes + 1)
      case Other => Failure(ValueType)
      case _ => Success(nodes + 1)
  }

  function WalkItems(l: Limits, items: seq<Value>, depth: nat, nodes: nat): Result<nat, SpecError>
    decreases items
  {
    if items == [] then Success(nodes)
    else
      match Walk(l, items[0], depth + 1, nodes)
      case Failure(e) => Failure(e)
      case Success(n) => WalkItems(l, items[1..], depth, n)
  }

  function WalkEntries(l: Limits, entries: seq<Entry>, depth: nat, nodes: nat): Result<nat, SpecError>
    decreases entries
  {
    if entries == [] then Success(nodes)
    else
      match WalkEntry(l, entries[0], depth, nodes)
      case Failure(e) => Failure(e)
      case Success(n) => WalkEntries(l, entries[1..], depth, n)
  }

  function WalkEntry(l: Limits, e: Entry, depth: nat, nodes: nat): Result<nat, SpecError>
    decreases e
  {
    if e.key.NotAString? then Failure(KeyType)
    else if IsSensitive(e.key.s) then Failure(Credentials)
    else Walk(l, e.value, depth + 1, nodes)
  }

  // The walk as the program does it, the counter shared by all recursive calls.
  class Inspector {
    const limits: Limits
    var nodes: nat

    constructor (limits: Limits)
      ensures this.limits == limits && nodes == 0
    {
      this.limits, nodes := limits, 0;
    }

    /** Each call adds the nodes below it to the one counter, or stops at the first error. */
    method Inspect(v: Value, depth: nat) returns (r: Option<SpecError>)
      modifies this
      ensures match Walk(limits, v, depth, old(nodes))
              case Success(n) => r.None? && nodes == n
              case Failure(e) => r == Some(e)
      decreases v
    {
      hide IsSensitive;
      nodes := nodes + 1;
      if nodes > limits.nodes || depth > limits.depth {
        return Some(StructuralLimits);
      }
      match v {
        case Dict(entries) =>
          for k := 0 to |entries|
            invariant WalkEntries(limits, entries[k..], depth, nodes) == Walk(limits, v, depth, old(nodes))
          {
            assert entries[k..][1..] == entries[k + 1..];
            var key := entries[k].key;
            if key.NotAString? {
              return Some(KeyType);
            }
            if IsSensitive(key.s) {
              return Some(Credentials);
            }
            r := Inspect(entries[k].value, depth + 1);
            if r.Some? {
              return;
            }
          }
        case List(items) =>
          for k := 0 to |items|
            invariant WalkItems(limits, items[k..], depth, nodes) == Walk(limits, v, depth, old(nodes))
          {
            assert items[k..][1..] == items[k + 1..];
            r := Inspect(items[k], depth + 1);
            if r.Some? {
              return;
            }
          }
        case Other => return Some(ValueType);
        case _ =>
      }
      return None;
    }
  }

  // ---------- what the walk accepts ----------

  // The JSON value that a Python value stands for, if it is made of JSON types only.
  function ToJson(v: Value, valueOf: string -> real): Option<Json>
    decreases v
  {
    match v
    case Nothing => Some(Null)
    case Boolean(b) => Some(Bool(b))
    case Number(text) => Some(Num(valueOf(text), text))
    case Text(s) => Some(Str(s))
    case List(items) => (match ToItems(items, valueOf) case Some(js) => Some(Arr(js)) case None => None)
    case Dict(entries) => (match ToFields(entries, valueOf) case Some(fields) => Some(Obj(fields)) case None => None)
    case Other => None
  }

  function ToItems(items: seq<Value>, valueOf: string -> real): (r: Option<seq<Json>>)
    ensures r.Some? ==> |r.value| == |items|
    decreases items
  {
    if items == [] then Some([])
    else
      match (ToJson(items[0], valueOf), ToItems(items[1..], valueOf))
      case (Some(j), Some(rest)) => Some([j] + rest)
      case (_, _) => None
  }

  function ToFields(entries: seq<Entry>, valueOf: string -> real): (r: Option<seq<Field>>)
    ensures r.Some? ==> |r.value| == |entries|
    decreases entries
  {
    if entries == [] then Some([])
    else
      match (ToField(entries[0], valueOf), ToFields(entries[1..], valueOf))
      case (Some(f), Some(rest)) => Some([f] + rest)
      case (_, _) => None
  }

  function ToField(e: Entry, valueOf: string -> real): Option<Field>
    decreases e
  {
    if e.key.NotAString? then None
    else
      match ToJson(e.value, valueOf)
      case Some(j) => Some(Field(e.key.s, j))
      case None => None
  }

  // The number of values in a tree, itself included.
  function Size(j: Json): nat
    decreases j
  {
    match j
    case Arr(items) => 1 + SizeOfItems(items)
    case Obj(fields) => 1 + SizeOfFields(fields)
    case _ => 1
  }

  function SizeOfItems(items: seq<Json>): nat
    decreases items
  {
    if items == [] then 0 else Size(items[0]) + SizeOfItems(items[1..])
  }

  function SizeOfFields(fields: seq<Field>): nat
    decreases fields
  {
    if fields == [] then 0 else Size(fields[0].value) + SizeOfFields(fields[1..])
  }

  // At most `levels` further levels below, and no key that names a credential.
  predicate Admissible(j: Json, levels: int)
    decreases j
  {
    levels >= 0
    && match j
       case Arr(items) => AdmissibleItems(items, levels - 1)
       case Obj(fields) => AdmissibleFields(fields, levels - 1)
       case _ => true
  }

  predicate AdmissibleItems(items: seq<Json>, levels: int)
    decreases items
  {
    forall i :: 0 <= i < |items| ==> Admissible(items[i], levels)
  }

  predicate AdmissibleFields(fields: seq<Field>, levels: int)
    decreases fields
  {
    forall i :: 0 <= i < |fields| ==> AdmissibleField(fields[i], levels)
  }

  predicate AdmissibleField(f: Field, levels: int)
    decreases f
  {
    !IsSensitive(f.name) && Admissible(f.value, levels)
  }

  /** The walk accepts exactly the JSON trees with few enough values, levels and no credential keys, and counts their values. */
  lemma {:induction false} WalkAccepts(l: Limits, v: Value, depth: nat, nodes: nat, valueOf: string -> real)
    ensures Walk(l, v, depth, nodes).Success? <==>
              var j := ToJson(v, valueOf);
              j.Some? && Admissible(j.value, l.depth - depth) && nodes + Size(j.value) <= l.nodes
    ensures Walk(l, v, depth, nodes).Success? ==> Walk(l, v, depth, nodes).value == nodes + Size(ToJson(v, valueOf).value)
    decreases v
  {
    hide IsSensitive;
    match v
    case List(items) =>
      if nodes + 1 <= l.nodes && depth <= l.depth {
        WalkItemsAccepts(l, items, depth, nodes + 1, valueOf);
      }
    case Dict(entries) =>
      if nodes + 1 <= l.nodes && depth <= l.depth {
        WalkEntriesAccepts(l, entries, depth, nodes + 1, valueOf);
      }
    case _ =>
  }

  lemma {:induction false} WalkItemsAccepts(l: Limits, items: seq<Value>, depth: nat, nodes: nat, valueOf: string -> real)
    requires nodes <= l.nodes
    ensures WalkItems(l, items, depth, nodes).Success? <==>
              var js := ToItems(items, valueOf);
              js.Some? && AdmissibleItems(js.value, l.depth - depth - 1) && nodes + SizeOfItems(js.value) <= l.nodes
    ensures WalkItems(l, items, depth, nodes).Success? ==>
              WalkItems(l, items, depth, nodes).value == nodes + SizeOfItems(ToItems(items, valueOf).value)
    decreases items
  {
    if items != [] {
      WalkAccepts(l, items[0], depth + 1, nodes, valueOf);
      var first, rest := ToJson(items[0], valueOf), ToItems(items[1..], valueOf);
      if Walk(l, items[0], depth + 1, nodes).Success? {
        WalkItemsAccepts(l, items[1..], depth, Walk(l, items[0], depth + 1, nodes).value, valueOf);
      }
      hide Walk, ToJson, Size, Admissible;
      if first.Some? && rest.Some? {
        ItemsStep(first.value, rest.value, l.depth - depth - 1);
      }
    }
  }

  lemma ItemsStep(j: Json, rest: seq<Json>, levels: int)
    ensures SizeOfItems([j] + rest) == Size(j) + SizeOfItems(rest)
    ensures AdmissibleItems([j] + rest, levels) <==> Admissible(j, levels) && AdmissibleItems(rest, levels)
  {
    hide Size, Admissible;
    var all := [j] + rest;
    assert all[1..] == rest;
    assert all[0] == j && forall i :: 0 <= i < |rest| ==> rest[i] == all[i + 1];
  }

  lemma {:induction false} WalkEntriesAccepts(l: Limits, entries: seq<Entry>, depth: nat, nodes: nat, valueOf: string -> real)
    requires nodes <= l.nodes
    ensures WalkEntries(l, entries, depth, nodes).Success? <==>
              var fields := ToFields(entries, valueOf);
              fields.Some? && AdmissibleFields(fields.value, l.depth - depth - 1) && nodes + SizeOfFields(fields.value) <= l.nodes
    ensures WalkEntries(l, entries, depth, nodes).Success? ==>
              WalkEntries(l, entries, depth, nodes).value == nodes + SizeOfFields(ToFields(entries, valueOf).value)
    decreases entries
  {
    if entries != [] {
      WalkEntryAccepts(l, entries[0], depth, nodes, valueOf);
      var first, rest := ToField(entries[0], valueOf), ToFields(entries[1..], valueOf);
      if WalkEntry(l, entries[0], depth, nodes).Success? {
        WalkEntriesAccepts(l, entries[1..], depth, WalkEntry(l, entries[0], depth, nodes).value, valueOf);
      }
      hide WalkEntry, ToField, Size, AdmissibleField;
      if first.Some? && rest.Some? {
        FieldsStep(first.value, rest.value, l.depth - depth - 1);
      }
    }
  }

  lemma {:induction false} WalkEntryAccepts(l: Limits, e: Entry, depth: nat, nodes: nat, valueOf: string -> real)
    requires nodes <= l.nodes
    ensures WalkEntry(l, e, depth, nodes).Success? <==>
              var f := ToField(e, valueOf);
              f.Some? && AdmissibleField(f.value, l.depth - depth - 1) && nodes + Size(f.value.value) <= l.nodes
    ensures WalkEntry(l, e, depth, nodes).Success? ==>
              WalkEntry(l, e, depth, nodes).value == nodes + Size(ToField(e, valueOf).value.value)
    decreases e
  {
    hide IsSensitive;
    if e.key.Name? {
      WalkAccepts(l, e.value, depth + 1, nodes, valueOf);
    }
  }

  lemma FieldsStep(f: Field, rest: seq<Field>, levels: int)
    ensures SizeOfFields([f] + rest) == Size(f.value) + SizeOfFields(rest)
    ensures AdmissibleFields([f] + rest, levels) <==> AdmissibleField(f, levels) && AdmissibleFields(rest, levels)
  {
    hide Size, AdmissibleField;
    var all := [f] + rest;
    assert all[1..] == rest;
    assert all[0] == f && forall i :: 0 <= i < |rest| ==> rest[i] == all[i + 1];
  }
}
