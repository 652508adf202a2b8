/** The canonical encoding: sorted keys, no whitespace.  It loses nothing but the order of keys. */
module CanonicalJson {
  import opened Wrappers
  import opened Sorting
  import opened Decimal
  import opened Json
  import opened JsonParser

  function FieldName(f: Field): string { f.name }

  // The value with the members of every object in key order, as json.loads builds it back.
  function Normal(j: Json): Json
    decreases j
  {
    match j
    case Arr(items) => Arr(NormalItems(j, 0))
    case Obj(fields) => Obj(SortBy(NormalFields(j, 0), FieldName))
    case _ => j
  }

  function NormalItems(j: Json, k: nat): (r: seq<Json>)
    requires j.Arr? && k <= |j.items|
    ensures |r| == |j.items| - k
    decreases j, 0, |j.items| - k
  {
    if k == |j.items| then [] else [Normal(j.items[k])] + NormalItems(j, k + 1)
  }

  function NormalFields(j: Json, k: nat): (r: seq<Field>)
    requires j.Obj? && k <= |j.fields|
    ensures |r| == |j.fields| - k
    decreases j, 0, |j.fields| - k
  {
    if k == |j.fields| then []
    else [Field(j.fields[k].name, Normal(j.fields[k].value))] + NormalFields(j, k + 1)
  }

  lemma {:induction false} NormalizedItems(j: Json, k: nat)
    requires j.Arr? && k <= |j.items|
    ensures forall i :: 0 <= i < |j.items| - k ==> NormalItems(j, k)[i] == Normal(j.items[k + i])
    decreases |j.items| - k
  {
    hide Normal;
    if k < |j.items| {
      NormalizedItems(j, k + 1);
      forall i | 0 <= i < |j.items| - k ensures NormalItems(j, k)[i] == Normal(j.items[k + i]) {
        if i > 0 {
          assert NormalItems(j, k)[i] == NormalItems(j, k + 1)[i - 1];
        }
      }
    }
  }

  lemma {:induction false} NormalizedFields(j: Json, k: nat)
    requires j.Obj? && k <= |j.fields|
    ensures forall i :: 0 <= i < |j.fields| - k ==> NormalFields(j, k)[i] == NormalField(j.fields[k + i])
    decreases |j.fields| - k
  {
    hide Normal;
    if k < |j.fields| {
      NormalizedFields(j, k + 1);
      forall i | 0 <= i < |j.fields| - k ensures NormalFields(j, k)[i] == NormalField(j.fields[k + i]) {
        if i > 0 {
          assert NormalFields(j, k)[i] == NormalFields(j, k + 1)[i - 1];
        }
      }
    }
  }

  function Encode(j: Json): string { Dumps(j, COMPACT) }

  // Numbers are printed as json.loads reads them.
  predicate Printed(j: Json, valueOf: string -> real)
    decreases j
  {
    match j
    case Num(value, text) => IsNumberText(text) && value == valueOf(text)
    case Arr(items) => forall i :: 0 <= i < |items| ==> Printed(items[i], valueOf)
    case Obj(fields) => forall i :: 0 <= i < |fields| ==> Printed(fields[i].value, valueOf)
    case _ => true
  }

  // ---------- sorting commutes with renaming what is sorted ----------

  function Map<A, B>(f: A -> B, xs: seq<A>): (r: seq<B>)
    ensures |r| == |xs| && forall i :: 0 <= i < |xs| ==> r[i] == f(xs[i])
  {
    seq(|xs|, i requires 0 <= i < |xs| => f(xs[i]))
  }

  lemma {:induction false} InsertMap<A(!new), B(!new)>(f: A -> B, x: A, xs: seq<A>, key: A -> string, key': B -> string)
    requires forall a :: key'(f(a)) == key(a)
    ensures Insert(f(x), Map(f, xs), key') == Map(f, Insert(x, xs, key))
  {
    hide Less;
    if xs != [] && Less(key(xs[0]), key(x)) {
      InsertMap(f, x, xs[1..], key, key');
      assert Map(f, xs)[1..] == Map(f, xs[1..]);
    }
  }

  lemma {:induction false} SortMap<A(!new), B(!new)>(f: A -> B, xs: seq<A>, key: A -> string, key': B -> string)
    requires forall a :: key'(f(a)) == key(a)
    ensures SortBy(Map(f, xs), key') == Map(f, SortBy(xs, key))
  {
    if xs != [] {
      SortMap(f, xs[1..], key, key');
      assert Map(f, xs)[1..] == Map(f, xs[1..]);
      InsertMap(f, xs[0], SortBy(xs[1..], key), key, key');
    }
  }

  function Render(f: Field): Member { Member(f.name, Quote(f.name) + ":" + Encode(f.value)) }

  function NormalField(f: Field): Field { Field(f.name, Normal(f.value)) }

  function MemberText(f: Field): string { Quote(f.name) + ":" + Encode(f.value) }

  lemma EncodeObject(j: Json)
    requires j.Obj?
    ensures Encode(j) == "{" + Join(Map(MemberText, SortBy(j.fields, FieldName)), ",") + "}"
    ensures Normal(j) == Obj(Map(NormalField, SortBy(j.fields, FieldName)))
  {
    hide Insert, SortBy, Join, Quote, Normal, Dumps;
    var sorted := SortBy(j.fields, FieldName);
    RenderedMembers(j);
    SortMap(Render, j.fields, FieldName, MemberName);
    assert Texts(Map(Render, sorted)) == Map(MemberText, sorted);
    NormalMembers(j);
    SortMap(NormalField, j.fields, FieldName, FieldName);
    ObjectDump(j);
  }

  lemma RenderedMembers(j: Json)
    requires j.Obj?
    ensures DumpMembers(j, 0, COMPACT) == Map(Render, j.fields)
  {
    hide Dumps, DumpMembers, Quote;
    DumpedMembers(j, 0, COMPACT);
  }

  lemma NormalMembers(j: Json)
    requires j.Obj?
    ensures NormalFields(j, 0) == Map(NormalField, j.fields)
  {
    hide Normal, NormalFields;
    NormalizedFields(j, 0);
  }

  lemma ObjectDump(j: Json)
    requires j.Obj?
    ensures Encode(j) == "{" + Join(Texts(SortBy(DumpMembers(j, 0, COMPACT), MemberName)), ",") + "}"
    ensures Normal(j) == Obj(SortBy(NormalFields(j, 0), FieldName))
  {
    hide Insert, SortBy, Join, DumpMembers, NormalFields;
  }

  // ---------- reading back what was printed ----------

  // What may follow a value.
  predicate Ends(rest: string) { rest == "" || rest[0] in {',', ']', '}'} }

  lemma HexDigits(d: nat)
    requires d < 16
    ensures HexValue(HexDigit(d)) == Some(d)
  {
  }

  lemma UnescapeEscape(c: char, rest: string)
    requires Escape(c)[0] == '\\'
    ensures Unescape(Escape(c)[1..] + rest) == Some((c, rest))
  {
    var s := Escape(c)[1..] + rest;
    if Escape(c) == "\\u00" + [HexDigit(c as nat / 16), HexDigit(c as nat % 16)] {
      HexDigits(c as nat / 16);
      HexDigits(c as nat % 16);
      assert s[1..5] == "00" + [HexDigit(c as nat / 16), HexDigit(c as nat % 16)];
      assert s[5..] == rest;
    } else {
      assert s[1..] == rest;
    }
  }

  lemma EscapeKinds(c: char)
    ensures Escape(c)[0] == '\\' || (Escape(c) == [c] && c >= ' ' && c != '"' && c != '\\')
    ensures Escape(c)[0] >= ' ' && Escape(c)[0] != '"'
  {
  }

  // One more character at the front.
  lemma ParseOneMore(c: char, after: string, t: string, rest: string)
    requires ParseString(after) == Some((t, rest))
    ensures ParseString(Escape(c) + after) == Some(([c] + t, rest))
  {
    EscapeKinds(c);
    hide Escape, Unescape;
    var s := Escape(c) + after;
    if Escape(c)[0] == '\\' {
      UnescapeEscape(c, after);
      assert s[1..] == Escape(c)[1..] + after;
    } else {
      assert s[1..] == after;
    }
  }

  lemma {:induction false} ParseEscaped(t: string, rest: string)
    ensures ParseString(EscapeAll(t) + ("\"" + rest)) == Some((t, rest))
    decreases |t|
  {
    hide Escape;
    if t == "" {
      ParseClosing(rest);
    } else {
      var after := EscapeAll(t[1..]) + ("\"" + rest);
      ParseEscaped(t[1..], rest);
      ParseOneMore(t[0], after, t[1..], rest);
      assert EscapeAll(t) + ("\"" + rest) == Escape(t[0]) + after;
      assert [t[0]] + t[1..] == t;
    }
  }

  lemma ParseClosing(rest: string)
    ensures ParseString(EscapeAll("") + ("\"" + rest)) == Some(("", rest))
  {
    assert EscapeAll("") + ("\"" + rest) == "\"" + rest;
    assert ("\"" + rest)[1..] == rest;
  }

  lemma ParseQuoted(t: string, rest: string)
    ensures Quote(t)[0] == '"'
    ensures ParseString((Quote(t) + rest)[1..]) == Some((t, rest))
  {
    hide ParseString, EscapeAll;
    ParseEscaped(t, rest);
    assert (Quote(t) + rest)[1..] == EscapeAll(t) + ("\"" + rest);
  }

  lemma NumberChars(text: string)
    requires IsNumberText(text)
    ensures forall i :: 0 <= i < |text| ==> NumberChar(text[i])
    ensures text != "" && (text[0] == '-' || IsDigit(text[0]))
  {
    hide SplitsAt;
    var u := if text[0] == '-' then text[1..] else text;
    var i, j :| 0 < i <= j <= |u| && SplitsAt(u, i, j);
    UnsignedChars(u, i, j);
    assert NumberChar('-');
    hide NumberChar, IsDigit;
    if text[0] == '-' {
      assert forall k :: 1 <= k < |text| ==> text[k] == u[k - 1];
    }
  }

  predicate AllNumberChars(s: string) { forall k :: 0 <= k < |s| ==> NumberChar(s[k]) }

  lemma UnsignedChars(u: string, i: nat, j: nat)
    requires 0 < i <= j <= |u| && SplitsAt(u, i, j)
    ensures AllNumberChars(u) && IsDigit(u[0])
  {
    var a, b, c := u[..i], u[i..j], u[j..];
    assert AllNumberChars(a) && u[0] == a[0] && IsDigit(a[0]);
    FractionChars(b);
    ExponentChars(c);
    assert u == a + b + c;
    hide NumberChar, IsInteger, IsFraction, IsExponent, IsDigit;
  }

  lemma FractionChars(b: string)
    ensures IsFraction(b) ==> AllNumberChars(b)
  {
    if IsFraction(b) {
      assert forall k :: 1 <= k < |b| ==> b[k] == b[1..][k - 1];
    }
  }

  lemma ExponentChars(c: string)
    ensures IsExponent(c) ==> AllNumberChars(c)
  {
    if IsExponent(c) {
      var digits := if c[1] in {'+', '-'} then c[2..] else c[1..];
      assert forall k :: |c| - |digits| <= k < |c| ==> c[k] == digits[k - (|c| - |digits|)];
    }
  }

  lemma {:induction false} NumberRunOf(text: string, rest: string)
    requires (forall i :: 0 <= i < |text| ==> NumberChar(text[i])) && Ends(rest)
    ensures NumberRun(text + rest) == (text, rest)
    decreases |text|
  {
    if text == "" {
      assert text + rest == rest;
    } else {
      NumberRunOf(text[1..], rest);
      assert (text + rest)[1..] == text[1..] + rest;
      assert [text[0]] + text[1..] == text;
    }
  }

  lemma ParseNumberText(text: string, rest: string, valueOf: string -> real)
    requires IsNumberText(text) && Ends(rest)
    ensures ParseValue(text + rest, valueOf) == Some((Num(valueOf(text), text), rest))
  {
    hide IsNumberText, NumberRun, NumberChar, ParseString, ParseItems, ParseMembers;
    NumberChars(text);
    NumberRunOf(text, rest);
    var s := text + rest;
    assert s[0] == text[0];
    assert "null"[0] == 'n' && "true"[0] == 't' && "false"[0] == 'f';
  }

  // The first character of a value tells it from the end of a list.
  lemma ValueStart(j: Json, valueOf: string -> real)
    requires Printed(j, valueOf)
    ensures Encode(j) != "" && !Ends(Encode(j))
  {
    if j.Num? {
      NumberChars(j.text);
    }
    hide Join, SortBy, DumpItems, DumpMembers, IsNumberText, Quote;
    if j.Str? {
      assert Quote(j.s)[0] == '"' by { QuoteStart(j.s); }
    }
  }

  lemma QuoteStart(s: string)
    ensures Quote(s) != "" && Quote(s)[0] == '"'
  {
  }

  /** Reading back an encoded value gives the value with its keys sorted, and leaves what follows it. */
  lemma {:induction false} ParseEncoded(j: Json, rest: string, valueOf: string -> real)
    requires Printed(j, valueOf) && Ends(rest)
    ensures ParseValue(Encode(j) + rest, valueOf) == Some((Normal(j), rest))
    decreases j, 1, 0
  {
    match j
    case Null => ParseWord(j, rest, valueOf);
    case Bool(_) => ParseWord(j, rest, valueOf);
    case Num(_, text) => ParseNumberText(text, rest, valueOf);
    case Str(t) => ParseText(t, rest, valueOf);
    case Arr(items) =>
      if items == [] {
        ParseEmpty(j, rest, valueOf);
      } else {
        ParseEncodedItems(j, 0, rest, valueOf);
        ValueStart(items[0], valueOf);
        ParseArray(j, rest, valueOf);
      }
    case Obj(fields) =>
      if fields == [] {
        ParseEmpty(j, rest, valueOf);
      } else {
        EncodeObject(j);
        var sorted := SortBy(fields, FieldName);
        MultisetMembers(sorted, fields);
        ParseEncodedMembers(j, sorted, rest, valueOf);
        ParseObject(j, sorted, rest, valueOf);
      }
  }

  lemma ParseWord(j: Json, rest: string, valueOf: string -> real)
    requires j.Null? || j.Bool?
    ensures ParseValue(Encode(j) + rest, valueOf) == Some((j, rest))
  {
    hide ParseString, ParseItems, ParseMembers, ParseNumber;
    var s := Encode(j) + rest;
    assert Encode(j) <= s && s[|Encode(j)|..] == rest;
    assert "null"[0] == 'n' && "true"[0] == 't' && "false"[0] == 'f' && s[0] == Encode(j)[0];
  }

  lemma ParseText(t: string, rest: string, valueOf: string -> real)
    ensures ParseValue(Quote(t) + rest, valueOf) == Some((Str(t), rest))
  {
    QuoteStart(t);
    hide ParseString, ParseItems, ParseMembers, ParseNumber, Quote;
    ParseQuoted(t, rest);
    assert (Quote(t) + rest)[0] == '"';
    assert "null"[0] == 'n' && "true"[0] == 't' && "false"[0] == 'f';
  }

  lemma ParseEmpty(j: Json, rest: string, valueOf: string -> real)
    requires j == Arr([]) || j == Obj([])
    ensures ParseValue(Encode(j) + rest, valueOf) == Some((Normal(j), rest))
  {
    hide ParseString, ParseItems, ParseMembers, ParseNumber;
    var s := Encode(j) + rest;
    assert Encode(j) == if j.Arr? then "[]" else "{}";
    assert s[2..] == rest && s[0] == Encode(j)[0] && s[1] == Encode(j)[1];
    assert "null"[0] == 'n' && "true"[0] == 't' && "false"[0] == 'f';
  }

  // The text of an array from item k on.
  function ItemsText(j: Json, k: nat): string
    requires j.Arr? && k <= |j.items|
  {
    Join(DumpItems(j, k, COMPACT), ",")
  }

  lemma ItemsTextStep(j: Json, k: nat)
    requires j.Arr? && k < |j.items|
    ensures ItemsText(j, k) == Encode(j.items[k]) + if k + 1 == |j.items| then "" else "," + ItemsText(j, k + 1)
  {
    hide Dumps;
    assert DumpItems(j, k, COMPACT)[1..] == DumpItems(j, k + 1, COMPACT);
  }

  lemma ItemsLast(s: string, item: Json, rest: string, valueOf: string -> real)
    requires ParseValue(s, valueOf) == Some((item, "]" + rest))
    ensures ParseItems(s, valueOf) == Some(([item], rest))
  {
    hide ParseValue;
    assert ("]" + rest)[1..] == rest;
  }

  lemma ItemsMore(s: string, item: Json, next: string, items: seq<Json>, rest: string, valueOf: string -> real)
    requires ParseValue(s, valueOf) == Some((item, "," + next)) && ParseItems(next, valueOf) == Some((items, rest))
    ensures ParseItems(s, valueOf) == Some(([item] + items, rest))
  {
    hide ParseValue;
    assert ("," + next)[1..] == next;
  }

  lemma {:induction false} ParseEncodedItems(j: Json, k: nat, rest: string, valueOf: string -> real)
    requires j.Arr? && k < |j.items| && Printed(j, valueOf)
    ensures ParseItems(ItemsText(j, k) + ("]" + rest), valueOf) == Some((NormalItems(j, k), rest))
    decreases j, 0, |j.items| - k
  {
    hide ParseValue, ParseItems, ItemsText, Encode, Normal;
    ItemsTextStep(j, k);
    if k + 1 == |j.items| {
      assert ItemsText(j, k) + ("]" + rest) == Encode(j.items[k]) + ("]" + rest);
      ParseEncoded(j.items[k], "]" + rest, valueOf);
      ItemsLast(ItemsText(j, k) + ("]" + rest), Normal(j.items[k]), rest, valueOf);
      assert NormalItems(j, k) == [Normal(j.items[k])];
    } else {
      var next := ItemsText(j, k + 1) + ("]" + rest);
      assert ItemsText(j, k) + ("]" + rest) == Encode(j.items[k]) + ("," + next);
      ParseEncoded(j.items[k], "," + next, valueOf);
      ParseEncodedItems(j, k + 1, rest, valueOf);
      ItemsMore(ItemsText(j, k) + ("]" + rest), Normal(j.items[k]), next, NormalItems(j, k + 1), rest, valueOf);
    }
  }

  lemma ParseBrackets(s: string, items: seq<Json>, rest: string, valueOf: string -> real)
    requires s != "" && s[0] != ']' && ParseItems(s, valueOf) == Some((items, rest))
    ensures ParseValue("[" + s, valueOf) == Some((Arr(items), rest))
  {
    hide ParseItems, ParseString, ParseMembers, ParseNumber;
    assert ("[" + s)[1..] == s;
    assert "null"[0] == 'n' && "true"[0] == 't' && "false"[0] == 'f' && ("[" + s)[0] == '[';
  }

  lemma ParseArray(j: Json, rest: string, valueOf: string -> real)
    requires j.Arr? && j.items != [] && Encode(j.items[0]) != "" && !Ends(Encode(j.items[0]))
    requires ParseItems(ItemsText(j, 0) + ("]" + rest), valueOf) == Some((NormalItems(j, 0), rest))
    ensures ParseValue(Encode(j) + rest, valueOf) == Some((Normal(j), rest))
  {
    hide ParseItems, ItemsText, ParseValue, Encode, Normal, NormalItems;
    ItemsTextStep(j, 0);
    ArrayDump(j);
    var s := ItemsText(j, 0) + ("]" + rest);
    assert s[0] == Encode(j.items[0])[0];
    ParseBrackets(s, NormalItems(j, 0), rest, valueOf);
    assert Encode(j) + rest == "[" + s;
  }

  lemma ArrayDump(j: Json)
    requires j.Arr?
    ensures Encode(j) == "[" + ItemsText(j, 0) + "]" && Normal(j) == Arr(NormalItems(j, 0))
  {
    hide Join, DumpItems, NormalItems;
  }

  function MembersText(fields: seq<Field>): string { Join(Map(MemberText, fields), ",") }

  lemma MembersTextStep(fields: seq<Field>)
    requires fields != []
    ensures MembersText(fields) == MemberText(fields[0]) + if |fields| == 1 then "" else "," + MembersText(fields[1..])
  {
    hide MemberText;
    assert Map(MemberText, fields)[1..] == Map(MemberText, fields[1..]);
  }

  lemma ParseEncodedMember(f: Field, rest: string, valueOf: string -> real)
    requires ParseValue(Encode(f.value) + rest, valueOf) == Some((Normal(f.value), rest))
    ensures ParseMember(MemberText(f) + rest, valueOf) == Some((NormalField(f), rest))
  {
    hide ParseValue, ParseString, Encode, Normal, Quote;
    var s := MemberText(f) + rest;
    var after := ":" + (Encode(f.value) + rest);
    assert s == Quote(f.name) + after;
    ParseQuoted(f.name, after);
    assert s[0] == '"';
    assert after[1..] == Encode(f.value) + rest;
  }

  lemma MembersLast(s: string, f: Field, rest: string, valueOf: string -> real)
    requires ParseMember(s, valueOf) == Some((f, "}" + rest))
    ensures ParseMembers(s, valueOf) == Some(([f], rest))
  {
    hide ParseMember;
    assert ("}" + rest)[1..] == rest;
  }

  lemma MembersMore(s: string, f: Field, next: string, fields: seq<Field>, rest: string, valueOf: string -> real)
    requires ParseMember(s, valueOf) == Some((f, "," + next)) && ParseMembers(next, valueOf) == Some((fields, rest))
    ensures ParseMembers(s, valueOf) == Some(([f] + fields, rest))
  {
    hide ParseMember;
    assert ("," + next)[1..] == next;
  }

  lemma {:induction false} ParseEncodedMembers(j: Json, fields: seq<Field>, rest: string, valueOf: string -> real)
    requires j.Obj? && Printed(j, valueOf) && fields != [] && forall f :: f in fields ==> f in j.fields
    ensures ParseMembers(MembersText(fields) + ("}" + rest), valueOf) == Some((Map(NormalField, fields), rest))
    decreases j, 0, |fields|
  {
    hide ParseValue, ParseMember, ParseMembers, MembersText, Encode, MemberText, NormalField;
    var f := fields[0];
    assert f in j.fields;
    MembersTextStep(fields);
    var s := MembersText(fields) + ("}" + rest);
    if |fields| == 1 {
      assert s == MemberText(f) + ("}" + rest);
      ParseEncoded(f.value, "}" + rest, valueOf);
      ParseEncodedMember(f, "}" + rest, valueOf);
      MembersLast(s, NormalField(f), rest, valueOf);
      assert Map(NormalField, fields) == [NormalField(f)];
    } else {
      var next := MembersText(fields[1..]) + ("}" + rest);
      assert s == MemberText(f) + ("," + next);
      ParseEncoded(f.value, "," + next, valueOf);
      ParseEncodedMember(f, "," + next, valueOf);
      ParseEncodedMembers(j, fields[1..], rest, valueOf);
      MembersMore(s, NormalField(f), next, Map(NormalField, fields[1..]), rest, valueOf);
      assert Map(NormalField, fields) == [NormalField(f)] + Map(NormalField, fields[1..]);
    }
  }

  lemma ParseBraces(s: string, fields: seq<Field>, rest: string, valueOf: string -> real)
    requires s != "" && s[0] == '"' && ParseMembers(s, valueOf) == Some((fields, rest))
    ensures ParseValue("{" + s, valueOf) == Some((Obj(fields), rest))
  {
    hide ParseItems, ParseString, ParseMembers, ParseNumber;
    assert ("{" + s)[1..] == s;
    assert "null"[0] == 'n' && "true"[0] == 't' && "false"[0] == 'f' && ("{" + s)[0] == '{';
  }

  lemma MembersTextStart(fields: seq<Field>)
    requires fields != []
    ensures MembersText(fields) != "" && MembersText(fields)[0] == '"'
  {
    hide MembersText, Encode, Quote;
    MembersTextStep(fields);
    QuoteStart(fields[0].name);
  }

  lemma ParseObject(j: Json, sorted: seq<Field>, rest: string, valueOf: string -> real)
    requires j.Obj? && sorted != [] && Encode(j) == "{" + MembersText(sorted) + "}" && Normal(j) == Obj(Map(NormalField, sorted))
    requires ParseMembers(MembersText(sorted) + ("}" + rest), valueOf) == Some((Map(NormalField, sorted), rest))
    ensures ParseValue(Encode(j) + rest, valueOf) == Some((Normal(j), rest))
  {
    hide MembersText, ParseValue, ParseMembers, Encode, Normal, NormalField;
    MembersTextStart(sorted);
    var s := MembersText(sorted) + ("}" + rest);
    ParseBraces(s, Map(NormalField, sorted), rest, valueOf);
    assert Encode(j) + rest == "{" + s;
  }

  /** Loading the canonical encoding gives the value back, its keys in order. */
  lemma LoadsEncoded(j: Json, valueOf: string -> real)
    requires Printed(j, valueOf)
    ensures Loads(Encode(j), valueOf) == Some(Normal(j))
  {
    ParseEncoded(j, "", valueOf);
    assert Encode(j) + "" == Encode(j);
  }
}
