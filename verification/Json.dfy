/**
 * JSON values as Python holds them after json.loads, and the ways the program
 * compares them: Python's ==, JSON Schema's instance equality, and the sorted dump.
 */
module Json {
  import opened Wrappers
  import opened Sorting

  // Objects keep their insertion order.  A number carries its value and its printed form,
  // so that 1 and 1.0 are equal but print differently.
  datatype Json =
    | Null
    | Bool(b: bool)
    | Num(value: real, text: string)
    | Str(s: string)
    | Arr(items: seq<Json>)
    | Obj(fields: seq<Field>)

  datatype Field = Field(name: string, value: Json)

  function Find(fields: seq<Field>, name: string): (r: Option<Json>)
    ensures r.None? <==> forall i :: 0 <= i < |fields| ==> fields[i].name != name
    ensures r.Some? ==> r.value < Obj(fields)
    ensures r.Some? ==> exists i :: 0 <= i < |fields| && fields[i] == Field(name, r.value)
  {
    if fields == [] then None
    else if fields[0].name == name then Some(fields[0].value)
    else Find(fields[1..], name)
  }

  predicate Has(fields: seq<Field>, name: string) { Find(fields, name).Some? }

  // dict.get(name): None when the key is absent.
  function Get(fields: seq<Field>, name: string): (r: Json)
    ensures r != Null ==> Has(fields, name) && r == Find(fields, name).value
  {
    match Find(fields, name)
    case Some(v) => v
    case None => Null
  }

  predicate DistinctNames(fields: seq<Field>) {
    forall i, j :: 0 <= i < j < |fields| ==> fields[i].name != fields[j].name
  }

  /** A dict has each key once, at every depth. */
  predicate WellFormed(j: Json) {
    match j
    case Arr(items) => forall i :: 0 <= i < |items| ==> WellFormed(items[i])
    case Obj(fields) => DistinctNames(fields) && forall i :: 0 <= i < |fields| ==> WellFormed(fields[i].value)
    case _ => true
  }

  lemma {:induction false} FindAt(fields: seq<Field>, i: nat)
    requires i < |fields| && DistinctNames(fields)
    ensures Find(fields, fields[i].name) == Some(fields[i].value)
  {
    if i > 0 {
      FindAt(fields[1..], i - 1);
    }
  }

  // isinstance(x, (int, float)): a Python bool is an int.
  predicate IsNumber(j: Json) { j.Num? || j.Bool? }

  function NumberOf(j: Json): real
    requires IsNumber(j)
  {
    match j
    case Num(v, _) => v
    case Bool(b) => if b then 1.0 else 0.0
  }

  // Which atoms are equal: in Python True == 1, in JSON Schema they differ, and exactly the same
  // are only those that also print alike.
  datatype Equality = Python | Schema | Exact

  predicate AtomSame(a: Json, b: Json, e: Equality) {
    if e.Python? && IsNumber(a) && IsNumber(b) then NumberOf(a) == NumberOf(b)
    else if e.Schema? && a.Num? && b.Num? then a.value == b.value
    else a == b
  }

  predicate Same(a: Json, b: Json, e: Equality)
    decreases a
  {
    match (a, b)
    case (Arr(x), Arr(y)) => |x| == |y| && forall i :: 0 <= i < |x| ==> Same(x[i], y[i], e)
    case (Obj(x), Obj(y)) => |x| == |y| && forall i :: 0 <= i < |x| ==> SameField(x[i], y, e)
    case (_, _) => AtomSame(a, b, e)
  }

  predicate SameField(f: Field, others: seq<Field>, e: Equality)
    decreases f
  {
    var g := Find(others, f.name);
    g.Some? && Same(f.value, g.value, e)
  }

  predicate PyEq(a: Json, b: Json) { Same(a, b, Python) }

  predicate InstanceEq(a: Json, b: Json) { Same(a, b, Schema) }

  predicate PyIn(x: Json, xs: seq<Json>) { exists i :: 0 <= i < |xs| && PyEq(x, xs[i]) }

  lemma {:induction false} SameReflexive(a: Json, e: Equality)
    requires WellFormed(a)
    ensures Same(a, a, e)
  {
    match a
    case Arr(x) =>
      forall i | 0 <= i < |x| ensures Same(x[i], x[i], e) { SameReflexive(x[i], e); }
    case Obj(x) =>
      forall i | 0 <= i < |x| ensures SameField(x[i], x, e) {
        FindAt(x, i);
        SameReflexive(x[i].value, e);
      }
    case _ =>
  }

  lemma {:induction false} SameTransitive(a: Json, b: Json, c: Json, e: Equality)
    requires Same(a, b, e) && Same(b, c, e)
    ensures Same(a, c, e)
    decreases a
  {
    match (a, b, c)
    case (Arr(x), Arr(y), Arr(z)) =>
      forall i | 0 <= i < |x| ensures Same(x[i], z[i], e) { SameTransitive(x[i], y[i], z[i], e); }
    case (Obj(x), Obj(y), Obj(z)) =>
      forall i | 0 <= i < |x| ensures SameField(x[i], z, e) {
        assert SameField(x[i], y, e);
        var g := Find(y, x[i].name).value;
        var j :| 0 <= j < |y| && y[j] == Field(x[i].name, g);
        assert SameField(y[j], z, e);
        SameTransitive(x[i].value, g, Find(z, x[i].name).value, e);
      }
    case (_, _, _) =>
  }

  // ---------- json.dumps(value, ensure_ascii=False, sort_keys=True, separators=...) ----------

  datatype Separators = Separators(item: string, key: string)

  const COMPACT := Separators(",", ":")
  const DEFAULT := Separators(", ", ": ")

  function HexDigit(d: nat): char
    requires d < 16
  {
    if d < 10 then '0' + d as char else 'a' + (d - 10) as char
  }

  // One character inside a JSON string literal (RFC 8259 section 7).
  function Escape(c: char): (r: string)
    ensures r != []
  {
    if c == '"' then "\\\""
    else if c == '\\' then "\\\\"
    else if c == '\n' then "\\n"
    else if c == '\r' then "\\r"
    else if c == '\t' then "\\t"
    else if c == 8 as char then "\\b"
    else if c == 12 as char then "\\f"
    else if c < ' ' then "\\u00" + [HexDigit(c as nat / 16), HexDigit(c as nat % 16)]
    else [c]
  }

  function EscapeAll(s: string): string {
    if s == [] then [] else Escape(s[0]) + EscapeAll(s[1..])
  }

  function Quote(s: string): string { "\"" + EscapeAll(s) + "\"" }

  // An object member already rendered, so that members can be sorted by name.
  datatype Member = Member(name: string, text: string)

  function MemberName(m: Member): string { m.name }

  function Dumps(j: Json, sep: Separators): string
    decreases j
  {
    match j
    case Null => "null"
    case Bool(b) => if b then "true" else "false"
    case Num(_, text) => text
    case Str(s) => Quote(s)
    case Arr(items) => "[" + Join(DumpItems(j, 0, sep), sep.item) + "]"
    case Obj(fields) => "{" + Join(Texts(SortBy(DumpMembers(j, 0, sep), MemberName)), sep.item) + "}"
  }

  function DumpItems(j: Json, k: nat, sep: Separators): (r: seq<string>)
    requires j.Arr? && k <= |j.items|
    ensures |r| == |j.items| - k
    decreases j, 0, |j.items| - k
  {
    if k == |j.items| then [] else [Dumps(j.items[k], sep)] + DumpItems(j, k + 1, sep)
  }

  function DumpMembers(j: Json, k: nat, sep: Separators): (r: seq<Member>)
    requires j.Obj? && k <= |j.fields|
    ensures |r| == |j.fields| - k
    decreases j, 0, |j.fields| - k
  {
    if k == |j.fields| then []
    else
      [Member(j.fields[k].name, Quote(j.fields[k].name) + sep.key + Dumps(j.fields[k].value, sep))]
      + DumpMembers(j, k + 1, sep)
  }

  lemma {:induction false} DumpedItems(j: Json, k: nat, sep: Separators)
    requires j.Arr? && k <= |j.items|
    ensures forall i :: 0 <= i < |j.items| - k ==> DumpItems(j, k, sep)[i] == Dumps(j.items[k + i], sep)
    decreases |j.items| - k
  {
    hide Dumps;
    if k < |j.items| {
      DumpedItems(j, k + 1, sep);
      forall i | 0 <= i < |j.items| - k ensures DumpItems(j, k, sep)[i] == Dumps(j.items[k + i], sep) {
        if i > 0 {
          assert DumpItems(j, k, sep)[i] == DumpItems(j, k + 1, sep)[i - 1];
        }
      }
    }
  }

  function DumpMember(f: Field, sep: Separators): Member { Member(f.name, Quote(f.name) + sep.key + Dumps(f.value, sep)) }

  lemma {:induction false} DumpedMembers(j: Json, k: nat, sep: Separators)
    requires j.Obj? && k <= |j.fields|
    ensures forall i :: 0 <= i < |j.fields| - k ==> DumpMembers(j, k, sep)[i] == DumpMember(j.fields[k + i], sep)
    decreases |j.fields| - k
  {
    hide Dumps, Quote;
    if k < |j.fields| {
      DumpedMembers(j, k + 1, sep);
      forall i | 0 <= i < |j.fields| - k ensures DumpMembers(j, k, sep)[i] == DumpMember(j.fields[k + i], sep) {
        if i > 0 {
          assert DumpMembers(j, k, sep)[i] == DumpMembers(j, k + 1, sep)[i - 1];
        }
      }
    }
  }

  function Texts(ms: seq<Member>): (r: seq<string>)
    ensures |r| == |ms| && forall i :: 0 <= i < |ms| ==> r[i] == ms[i].text
  {
    seq(|ms|, i requires 0 <= i < |ms| => ms[i].text)
  }

  function Join(parts: seq<string>, glue: string): string {
    if parts == [] then []
    else if |parts| == 1 then parts[0]
    else parts[0] + glue + Join(parts[1..], glue)
  }
}
