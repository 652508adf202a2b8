/** What the canonical encoding looks like, character by character (RFC 8259). */
module CanonicalText {
  import opened Sorting
  import opened Json
  import opened CanonicalJson

  // ---------- strings ----------

  predicate IsPlainChar(c: char) { c >= ' ' && c != '"' && c != '\\' }

  predicate IsPlain(s: string) { forall i :: 0 <= i < |s| ==> IsPlainChar(s[i]) }

  lemma {:induction false} PlainText(s: string)
    requires IsPlain(s)
    ensures Quote(s) == "\"" + s + "\"" && EscapeAll(s) == s
  {
    if s != "" {
      PlainText(s[1..]);
      assert [s[0]] + s[1..] == s;
    }
  }

  lemma {:induction false} EscapeJoined(a: string, b: string)
    ensures EscapeAll(a + b) == EscapeAll(a) + EscapeAll(b)
  {
    if a == "" {
      assert a + b == b;
    } else {
      assert (a + b)[1..] == a[1..] + b;
      EscapeJoined(a[1..], b);
    }
  }

  lemma EscapeOne(c: char)
    ensures EscapeAll([c]) == Escape(c)
  {
    assert [c][1..] == "" && EscapeAll("") == "";
  }

  // The short escapes of section 7, and the lower-case hexadecimal form of the other control characters.
  predicate IsEscape(c: char, text: string) {
    if IsPlainChar(c) then text == [c]
    else if c == '"' then text == "\\\""
    else if c == '\\' then text == "\\\\"
    else if c == 8 as char then text == "\\b"
    else if c == 9 as char then text == "\\t"
    else if c == 10 as char then text == "\\n"
    else if c == 12 as char then text == "\\f"
    else if c == 13 as char then text == "\\r"
    else |text| == 6 && text[..4] == "\\u00" && IsHexPair(c, text[4], text[5])
  }

  predicate IsHexPair(c: char, high: char, low: char) {
    exists h: nat, l: nat :: h < 16 && l < 16 && 16 * h + l == c as int && "0123456789abcdef"[h] == high && "0123456789abcdef"[l] == low
  }

  lemma HexPair(c: char)
    requires c < ' '
    ensures IsHexPair(c, HexDigit(c as nat / 16), HexDigit(c as nat % 16))
  {
    HexLetter(c as nat / 16);
    HexLetter(c as nat % 16);
    assert 16 * (c as nat / 16) + c as nat % 16 == c as int;
  }

  lemma HexLetter(d: nat)
    requires d < 16
    ensures "0123456789abcdef"[d] == HexDigit(d)
  {
  }

  /** A quoted string is its characters between quotes, each as section 7 of RFC 8259 writes it. */
  lemma QuotedText(a: string, c: char, b: string)
    ensures exists text :: IsEscape(c, text) && EscapeAll(a + [c] + b) == EscapeAll(a) + text + EscapeAll(b)
    ensures Quote(a) == "\"" + EscapeAll(a) + "\"" && EscapeAll("") == ""
  {
    EscapeIs(c);
    assert EscapeAll("") == "";
    hide EscapeAll, Escape, IsEscape;
    EscapeJoined(a + [c], b);
    EscapeJoined(a, [c]);
    EscapeOne(c);
  }

  lemma EscapeIs(c: char)
    ensures IsEscape(c, Escape(c))
  {
    if c < ' ' {
      HexPair(c);
    }
    hide IsHexPair;
  }

  // ---------- values ----------

  /** Words, numbers and strings, and arrays between brackets. */
  lemma ValueText(items: seq<Json>, value: real, text: string, s: string)
    ensures Encode(Null) == "null" && Encode(Bool(true)) == "true" && Encode(Bool(false)) == "false"
    ensures Encode(Num(value, text)) == text && Encode(Str(s)) == Quote(s)
    ensures Encode(Arr(items)) == "[" + Join(Map(Encode, items), ",") + "]"
  {
    hide Join, Quote;
    DumpedItems(Arr(items), 0, COMPACT);
    assert DumpItems(Arr(items), 0, COMPACT) == Map(Encode, items);
  }

  function Labeled(name: string, text: string): string { "\"" + name + "\"" + ":" + text }

  function LabeledText(f: Field): string { Labeled(f.name, Encode(f.value)) }

  lemma SortedStays(xs: seq<Field>)
    requires Increasing(xs, FieldName)
    ensures SortBy(xs, FieldName) == xs
  {
    hide SortBy, Less;
    forall i, j | 0 <= i < j < |xs| ensures FieldName(xs[i]) != FieldName(xs[j]) {
      LessIrreflexive(FieldName(xs[i]));
    }
    SortByIncreasing(xs, FieldName);
    MultisetMembers(SortBy(xs, FieldName), xs);
    IncreasingUnique(SortBy(xs, FieldName), xs, FieldName);
  }

  /** An object whose names are plain and in order: its members between braces, each name in quotes before its value. */
  lemma ObjectText(xs: seq<Field>)
    requires Increasing(xs, FieldName) && forall i :: 0 <= i < |xs| ==> IsPlain(xs[i].name)
    ensures Encode(Obj(xs)) == "{" + Join(Map(LabeledText, xs), ",") + "}"
  {
    hide Join, Encode, Quote, SortBy, IsPlain;
    SortedStays(xs);
    EncodeObject(Obj(xs));
    forall i | 0 <= i < |xs| ensures MemberText(xs[i]) == LabeledText(xs[i]) {
      PlainText(xs[i].name);
    }
    assert Map(MemberText, xs) == Map(LabeledText, xs);
  }
}
