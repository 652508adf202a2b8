/**
 * The strict unified-diff interpreter: applying a patch is replacing the old side of each
 * edit by its new side, and nothing else.  Lines keep their line ends.
 */
module UnifiedDiff {
  import opened Wrappers
  import opened Decimal
  import opened UnicodeDigits
  import opened Strings
  import opened TextLines

  datatype PatchError = WrongFile | MalformedHeader | Overlapping | UnexpectedContent | ContextDiffers | WrongLength

  datatype Header = Header(oldStart: nat, oldCount: nat, newStart: nat, newCount: nat)

  const FILE_HEADER := ["--- a/accelerate/utils/modeling.py\n", "+++ b/accelerate/utils/modeling.py\n"]

  // ---------- the hunk header: @@ -start,count +start,count @@ ----------

  function Expect(s: string, literal: string): Option<string> {
    if literal <= s then Some(s[|literal|..]) else None
  }

  // A number and a literal after it.
  function NumberThen(s: string, literal: string): Option<(nat, string)> {
    var k := DecimalRun(s);
    if k == 0 then None
    else
      match Expect(s[k..], literal)
      case None => None
      case Some(rest) => Some((ParseDecimal(s, k), rest))
  }

  function ParseHeader(line: string): Option<Header> {
    match Expect(line, "@@ -")
    case None => None
    case Some(s0) =>
      match NumberThen(s0, ",")
      case None => None
      case Some((a, s1)) =>
        match NumberThen(s1, " +")
        case None => None
        case Some((b, s2)) =>
          match NumberThen(s2, ",")
          case None => None
          case Some((c, s3)) =>
            match NumberThen(s3, " @@\n")
            case Some((d, "")) => Some(Header(a, b, c, d))
            case _ => None
  }

  function PrintHeader(h: Header): string {
    "@@ -" + (Digits(h.oldStart) + "," + (Digits(h.oldCount) + " +" + (Digits(h.newStart) + ","
    + (Digits(h.newCount) + " @@\n" + ""))))
  }

  lemma NumberThenPrinted(n: nat, literal: string, rest: string)
    requires literal != "" && !IsDecimal(literal[0])
    ensures NumberThen(Digits(n) + literal + rest, literal) == Some((n, rest))
  {
    var d := Digits(n);
    var s := d + literal + rest;
    assert s == d + (literal + rest);
    DecimalRunOf(n, literal + rest);
    assert s[|d|..] == literal + rest;
    assert (literal + rest)[|literal|..] == rest;
  }

  predicate IsHeader(line: string) { "@@ " <= line }

  /** Printing a hunk header and reading it back gives the same numbers. */
  lemma ParsePrintedHeader(h: Header)
    ensures ParseHeader(PrintHeader(h)) == Some(h)
    ensures IsHeader(PrintHeader(h))
  {
    hide NumberThen, Digits;
    var s3 := Digits(h.newCount) + " @@\n" + "";
    var s2 := Digits(h.newStart) + "," + s3;
    var s1 := Digits(h.oldCount) + " +" + s2;
    var s0 := Digits(h.oldStart) + "," + s1;
    NumberThenPrinted(h.newCount, " @@\n", "");
    NumberThenPrinted(h.newStart, ",", s3);
    NumberThenPrinted(h.oldCount, " +", s2);
    NumberThenPrinted(h.oldStart, ",", s1);
    assert ("@@ -" + s0)[4..] == s0;
  }

  // A numeral in the digits of any scripts.
  predicate IsNumeral(s: string, n: nat) { s != "" && AllDigits(Fold(s)) && ParseNat(Fold(s)) == n }

  lemma FoldJoined(a: string, b: string)
    ensures Fold(a + b) == Fold(a) + Fold(b)
  {
  }

  // A number and a literal are read exactly from a numeral and the literal.
  lemma NumberThenReads(s: string, literal: string, n: nat, rest: string)
    requires literal != "" && !IsDecimal(literal[0])
    ensures NumberThen(s, literal) == Some((n, rest)) <==> exists a :: IsNumeral(a, n) && s == a + literal + rest
  {
    if NumberThen(s, literal) == Some((n, rest)) {
      NumeralAhead(s, literal, n, rest);
    }
    hide NumberThen, IsNumeral, IsDecimal;
    if a :| IsNumeral(a, n) && s == a + literal + rest {
      NumeralRead(a, literal, n, rest);
    }
  }

  lemma NumeralAhead(s: string, literal: string, n: nat, rest: string)
    requires literal != "" && NumberThen(s, literal) == Some((n, rest))
    ensures exists a :: IsNumeral(a, n) && s == a + literal + rest
  {
    var k := DecimalRun(s);
    hide FoldChar, DecimalValue;
    assert Fold(s[..k]) == Fold(s)[..k];
    assert s[k..] == literal + rest;
    assert IsNumeral(s[..k], n) && s == s[..k] + literal + rest;
  }

  lemma NumeralRead(a: string, literal: string, n: nat, rest: string)
    requires literal != "" && !IsDecimal(literal[0]) && IsNumeral(a, n)
    ensures NumberThen(a + literal + rest, literal) == Some((n, rest))
  {
    var s := a + literal + rest;
    FoldJoined(a, literal + rest);
    assert s == a + (literal + rest) && Fold(literal + rest)[0] == FoldChar(literal[0]);
    hide FoldChar, DecimalValue;
    DigitRunOf(Fold(a), Fold(literal + rest));
    assert Fold(s)[..|a|] == Fold(a) && s[|a|..] == literal + rest && (literal + rest)[|literal|..] == rest;
  }

  predicate IsHeaderText(line: string, h: Header, a: string, b: string, c: string, d: string) {
    && line == "@@ -" + (a + "," + (b + " +" + (c + "," + (d + " @@\n" + ""))))
    && IsNumeral(a, h.oldStart) && IsNumeral(b, h.oldCount) && IsNumeral(c, h.newStart) && IsNumeral(d, h.newCount)
  }

  /** A line is read as a hunk header exactly when it is one, the four numbers being in this order. */
  lemma HeaderIffText(line: string, h: Header)
    ensures ParseHeader(line) == Some(h) <==> exists a, b, c, d :: IsHeaderText(line, h, a, b, c, d)
  {
    hide NumberThen, IsNumeral, IsDecimal;
    Separators();
    if ParseHeader(line) == Some(h) {
      var s0 := line[4..];
      var s1 := NumberThen(s0, ",").value.1;
      var s2 := NumberThen(s1, " +").value.1;
      var s3 := NumberThen(s2, ",").value.1;
      NumberThenReads(s0, ",", h.oldStart, s1);
      NumberThenReads(s1, " +", h.oldCount, s2);
      NumberThenReads(s2, ",", h.newStart, s3);
      NumberThenReads(s3, " @@\n", h.newCount, "");
      var a :| IsNumeral(a, h.oldStart) && s0 == a + "," + s1;
      var b :| IsNumeral(b, h.oldCount) && s1 == b + " +" + s2;
      var c :| IsNumeral(c, h.newStart) && s2 == c + "," + s3;
      var d :| IsNumeral(d, h.newCount) && s3 == d + " @@\n" + "";
      assert line == "@@ -" + s0;
      assert IsHeaderText(line, h, a, b, c, d);
    }
    if a, b, c, d :| IsHeaderText(line, h, a, b, c, d) {
      var s3 := d + " @@\n" + "";
      var s2 := c + "," + s3;
      var s1 := b + " +" + s2;
      var s0 := a + "," + s1;
      NumberThenReads(s0, ",", h.oldStart, s1);
      NumberThenReads(s1, " +", h.oldCount, s2);
      NumberThenReads(s2, ",", h.newStart, s3);
      NumberThenReads(s3, " @@\n", h.newCount, "");
      assert line == "@@ -" + s0 && line[4..] == s0;
    }
  }

  lemma Separators()
    ensures !IsDecimal(","[0]) && !IsDecimal(" +"[0]) && !IsDecimal(" @@\n"[0])
  {
  }

  lemma HeaderPrefix(line: string)
    requires ParseHeader(line).Some?
    ensures IsHeader(line)
  {
    hide NumberThen;
    assert "@@ -" <= line;
  }

  // ---------- body lines ----------

  datatype Line = Line(marker: char, content: string)

  predicate IsMarker(c: char) { c == ' ' || c == '+' || c == '-' }

  function ParseLine(line: string): Option<Line> {
    if line == "" || !IsMarker(line[0]) then None else Some(Line(line[0], line[1..]))
  }

  function Text(l: Line): string { [l.marker] + l.content }

  lemma ParseText(l: Line)
    requires IsMarker(l.marker)
    ensures ParseLine(Text(l)) == Some(l) && !IsHeader(Text(l))
  {
    assert Text(l)[1..] == l.content;
  }

  lemma TextParsed(line: string)
    requires ParseLine(line).Some?
    ensures IsMarker(ParseLine(line).value.marker) && Text(ParseLine(line).value) == line
  {
  }

  // ---------- what the interpreter does ----------

  // xs[lo:hi] in Python: the bounds are clamped to the length.
  function Slice(xs: seq<string>, lo: nat, hi: nat): (r: seq<string>)
    requires lo <= hi
    ensures |r| == (if hi <= |xs| then hi - lo else if lo <= |xs| then |xs| - lo else 0)
  {
    if hi <= |xs| then xs[lo..hi] else if lo <= |xs| then xs[lo..] else []
  }

  // Where the body of a hunk ends and what it produced.
  datatype BodyEnd = BodyEnd(cursor: nat, consumed: nat, oldSeen: nat, newSeen: nat, produced: seq<string>)

  function RunBody(original: seq<string>, lines: seq<string>, cursor: nat, consumed: nat): (r: Result<BodyEnd, PatchError>)
    requires cursor <= |lines|
    ensures r.Success? ==> cursor <= r.value.cursor <= |lines|
    decreases |lines| - cursor
  {
    if cursor == |lines| || IsHeader(lines[cursor]) then Success(BodyEnd(cursor, consumed, 0, 0, []))
    else
      match ParseLine(lines[cursor])
      case None => Failure(UnexpectedContent)
      case Some(l) =>
        if !InContext(original, consumed, l) then Failure(ContextDiffers)
        else
          match RunBody(original, lines, cursor + 1, Past(l, consumed))
          case Failure(e) => Failure(e)
          case Success(b) => Success(AfterLine(l, b))
  }

  // The end of a body that starts with this line, from the end of the rest.
  function AfterLine(l: Line, b: BodyEnd): BodyEnd {
    BodyEnd(b.cursor, b.consumed, |OldSide([l])| + b.oldSeen, |NewSide([l])| + b.newSeen, NewSide([l]) + b.produced)
  }

  // The source has the line that this body line takes from it.
  predicate InContext(original: seq<string>, consumed: nat, l: Line) {
    l.marker != '+' ==> consumed < |original| && original[consumed] == l.content
  }

  function Past(l: Line, consumed: nat): nat { if l.marker != '+' then consumed + 1 else consumed }

  // One turn of running a body.
  lemma RunBodyTurn(original: seq<string>, lines: seq<string>, cursor: nat, consumed: nat)
    requires cursor <= |lines|
    ensures RunBody(original, lines, cursor, consumed) ==
            if cursor == |lines| || IsHeader(lines[cursor]) then Success(BodyEnd(cursor, consumed, 0, 0, []))
            else if ParseLine(lines[cursor]).None? then Failure(UnexpectedContent)
            else
              var l := ParseLine(lines[cursor]).value;
              if !InContext(original, consumed, l) then Failure(ContextDiffers)
              else
                var b := RunBody(original, lines, cursor + 1, Past(l, consumed));
                if b.Success? then Success(AfterLine(l, b.value)) else b
  {
    hide ParseLine, IsHeader, AfterLine;
  }

  function RunHunks(original: seq<string>, lines: seq<string>, cursor: nat, consumed: nat): (r: Result<seq<string>, PatchError>)
    requires cursor <= |lines|
    decreases |lines| - cursor
  {
    if cursor == |lines| then Success(Drop(original, consumed))
    else
      match ParseHeader(lines[cursor])
      case None => Failure(MalformedHeader)
      case Some(h) =>
        if h.oldStart < consumed + 1 then Failure(Overlapping)
        else
          match RunBody(original, lines, cursor + 1, h.oldStart - 1)
          case Failure(e) => Failure(e)
          case Success(b) =>
            if b.oldSeen != h.oldCount || b.newSeen != h.newCount then Failure(WrongLength)
            else
              match RunHunks(original, lines, b.cursor, b.consumed)
              case Failure(e) => Failure(e)
              case Success(rest) => Success(Slice(original, consumed, h.oldStart - 1) + (b.produced + rest))
  }

  function Patched(original: seq<string>, lines: seq<string>): Result<seq<string>, PatchError> {
    if |lines| < 2 || lines[..2] != FILE_HEADER then Failure(WrongFile) else RunHunks(original, lines, 2, 0)
  }

  // ---------- edits ----------

  // Untouched lines, then the lines of one hunk.
  datatype Edit = Edit(gap: seq<string>, body: seq<Line>)

  predicate Marked(body: seq<Line>) { forall i :: 0 <= i < |body| ==> IsMarker(body[i].marker) }

  predicate MarkedAll(edits: seq<Edit>) { forall i :: 0 <= i < |edits| ==> Marked(edits[i].body) }

  function OldSide(body: seq<Line>): seq<string> {
    if body == [] then [] else (if body[0].marker != '+' then [body[0].content] else []) + OldSide(body[1..])
  }

  function NewSide(body: seq<Line>): seq<string> {
    if body == [] then [] else (if body[0].marker != '-' then [body[0].content] else []) + NewSide(body[1..])
  }

  lemma SidesCons(l: Line, rest: seq<Line>)
    ensures OldSide([l] + rest) == OldSide([l]) + OldSide(rest)
    ensures NewSide([l] + rest) == NewSide([l]) + NewSide(rest)
    ensures OldSide([l]) == (if l.marker != '+' then [l.content] else [])
    ensures NewSide([l]) == (if l.marker != '-' then [l.content] else [])
  {
    hide OldSide, NewSide;
    OldSideCons(l, rest);
    NewSideCons(l, rest);
  }

  lemma OldSideCons(l: Line, rest: seq<Line>)
    ensures OldSide([l] + rest) == OldSide([l]) + OldSide(rest)
    ensures OldSide([l]) == (if l.marker != '+' then [l.content] else [])
  {
    assert ([l] + rest)[0] == l && ([l] + rest)[1..] == rest;
    assert [l][1..] == [];
  }

  lemma NewSideCons(l: Line, rest: seq<Line>)
    ensures NewSide([l] + rest) == NewSide([l]) + NewSide(rest)
    ensures NewSide([l]) == (if l.marker != '-' then [l.content] else [])
  {
    assert ([l] + rest)[0] == l && ([l] + rest)[1..] == rest;
    assert [l][1..] == [];
  }

  // The text before the edits, and after them.
  function Source(edits: seq<Edit>, tail: seq<string>): seq<string> {
    if edits == [] then tail else edits[0].gap + (OldSide(edits[0].body) + Source(edits[1..], tail))
  }

  function Target(edits: seq<Edit>, tail: seq<string>): seq<string> {
    if edits == [] then tail else edits[0].gap + (NewSide(edits[0].body) + Target(edits[1..], tail))
  }

  function Growth(edits: seq<Edit>): int {
    if edits == [] then 0 else |NewSide(edits[0].body)| - |OldSide(edits[0].body)| + Growth(edits[1..])
  }

  // The lines from `cursor` on begin with this body.
  ghost predicate BodyAt(lines: seq<string>, cursor: nat, body: seq<Line>) {
    cursor + |body| <= |lines| && Marked(body)
    && forall i :: 0 <= i < |body| ==> lines[cursor + i] == Text(body[i])
  }

  function Min(a: nat, b: nat): nat { if a <= b then a else b }

  // original[from:], where `from` may lie beyond the end.
  function Drop(original: seq<string>, from: nat): seq<string> {
    if from <= |original| then original[from..] else []
  }

  // The header stands before this edit: it counts both sides, and its start leaves exactly the
  // gap.  A hunk may start beyond the end of the source; its gap is then all source that is left.
  ghost predicate HeaderOf(h: Header, e: Edit, consumed: nat, remaining: nat) {
    && h.oldStart > consumed
    && |e.gap| == Min(h.oldStart - 1 - consumed, remaining)
    && h.oldCount == |OldSide(e.body)| && h.newCount == |NewSide(e.body)|
  }

  // The hunks from `cursor` on say these edits.
  ghost predicate Says(lines: seq<string>, cursor: nat, edits: seq<Edit>, tail: seq<string>, consumed: nat)
    decreases |edits|
  {
    if edits == [] then cursor == |lines|
    else
      && cursor < |lines|
      && ParseHeader(lines[cursor]).Some?
      && var h := ParseHeader(lines[cursor]).value;
         && HeaderOf(h, edits[0], consumed, |Source(edits, tail)|)
         && BodyAt(lines, cursor + 1, edits[0].body)
         && Says(lines, cursor + 1 + |edits[0].body|, edits[1..], tail, h.oldStart - 1 + |OldSide(edits[0].body)|)
  }

  // ---------- soundness: an accepted patch is a list of edits ----------

  // The body is at the cursor, and running it ends as b says.
  ghost predicate RunsTo(original: seq<string>, lines: seq<string>, cursor: nat, consumed: nat, body: seq<Line>, b: BodyEnd) {
    && BodyAt(lines, cursor, body) && b.cursor == cursor + |body|
    && b.produced == NewSide(body) && b.newSeen == |NewSide(body)|
    && b.oldSeen == |OldSide(body)| && b.consumed == consumed + |OldSide(body)|
    && Drop(original, consumed) == OldSide(body) + Drop(original, b.consumed)
  }

  lemma {:induction false} BodySound(original: seq<string>, lines: seq<string>, cursor: nat, consumed: nat) returns (body: seq<Line>)
    requires cursor <= |lines| && RunBody(original, lines, cursor, consumed).Success?
    ensures RunsTo(original, lines, cursor, consumed, body, RunBody(original, lines, cursor, consumed).value)
    decreases |lines| - cursor
  {
    hide RunsTo, ParseLine, IsHeader, RunBody, AfterLine, InContext, Past;
    RunBodyTurn(original, lines, cursor, consumed);
    if cursor == |lines| || IsHeader(lines[cursor]) {
      body := [];
      NothingRuns(original, lines, cursor, consumed);
    } else {
      var l := ParseLine(lines[cursor]).value;
      var rest := BodySound(original, lines, cursor + 1, Past(l, consumed));
      body := [l] + rest;
      LineRuns(original, lines, cursor, consumed, l, rest, RunBody(original, lines, cursor + 1, Past(l, consumed)).value);
    }
  }

  lemma NothingRuns(original: seq<string>, lines: seq<string>, cursor: nat, consumed: nat)
    requires cursor <= |lines|
    ensures RunsTo(original, lines, cursor, consumed, [], BodyEnd(cursor, consumed, 0, 0, []))
  {
    hide Drop;
    EmptySides();
    EmptyBodyAt(lines, cursor);
    assert [] + Drop(original, consumed) == Drop(original, consumed);
  }

  lemma LineRuns(original: seq<string>, lines: seq<string>, cursor: nat, consumed: nat, l: Line, rest: seq<Line>, b: BodyEnd)
    requires cursor < |lines| && ParseLine(lines[cursor]) == Some(l)
    requires InContext(original, consumed, l) && RunsTo(original, lines, cursor + 1, Past(l, consumed), rest, b)
    ensures RunsTo(original, lines, cursor, consumed, [l] + rest, AfterLine(l, b))
  {
    hide ParseLine, OldSide, NewSide, BodyAt, Drop, Text;
    TextParsed(lines[cursor]);
    BodyAtCons(lines, cursor, l, rest);
    SidesCons(l, rest);
    DropStep(original, consumed, l, OldSide(rest) + Drop(original, b.consumed));
    assert OldSide([l] + rest) + Drop(original, b.consumed) == OldSide([l]) + (OldSide(rest) + Drop(original, b.consumed));
  }

  lemma EmptyBodyAt(lines: seq<string>, cursor: nat)
    requires cursor <= |lines|
    ensures BodyAt(lines, cursor, [])
  {
  }

  lemma BodyAtCons(lines: seq<string>, cursor: nat, l: Line, rest: seq<Line>)
    ensures BodyAt(lines, cursor, [l] + rest)
            <==> cursor < |lines| && IsMarker(l.marker) && lines[cursor] == Text(l) && BodyAt(lines, cursor + 1, rest)
  {
    hide Text, IsMarker;
    var body := [l] + rest;
    if cursor < |lines| && IsMarker(l.marker) && lines[cursor] == Text(l) && BodyAt(lines, cursor + 1, rest) {
      forall i | 0 <= i < |body| ensures lines[cursor + i] == Text(body[i]) && IsMarker(body[i].marker) {
        if i > 0 {
          assert body[i] == rest[i - 1];
          assert lines[cursor + 1 + (i - 1)] == Text(rest[i - 1]);
        }
      }
    }
    if BodyAt(lines, cursor, body) {
      assert lines[cursor + 0] == Text(body[0]);
      forall i | 0 <= i < |rest| ensures lines[cursor + 1 + i] == Text(rest[i]) && IsMarker(rest[i].marker) {
        assert body[i + 1] == rest[i] && lines[cursor + (i + 1)] == Text(body[i + 1]);
      }
    }
  }

  lemma EmptySides()
    ensures OldSide([]) == [] && NewSide([]) == []
  {
  }

  // Taking one line of the old side off the source.
  lemma DropStep(original: seq<string>, consumed: nat, l: Line, rest: seq<string>)
    ensures l.marker != '+' && consumed < |original| && original[consumed] == l.content && Drop(original, consumed + 1) == rest
            ==> Drop(original, consumed) == OldSide([l]) + rest
    ensures l.marker == '+' && Drop(original, consumed) == rest ==> Drop(original, consumed) == OldSide([l]) + rest
    ensures l.marker != '+' && Drop(original, consumed) == OldSide([l]) + rest
            ==> consumed < |original| && original[consumed] == l.content && Drop(original, consumed + 1) == rest
    ensures l.marker == '+' && Drop(original, consumed) == OldSide([l]) + rest ==> Drop(original, consumed) == rest
  {
    SidesCons(l, []);
    if l.marker == '+' {
      assert OldSide([l]) + rest == rest;
    } else {
      assert ([l.content] + rest)[0] == l.content && ([l.content] + rest)[1..] == rest;
      if consumed < |original| {
        assert original[consumed..] == [original[consumed]] + original[consumed + 1..];
        assert original[consumed..][1..] == original[consumed + 1..];
      }
    }
  }

  lemma {:induction false} HunksSound(original: seq<string>, lines: seq<string>, cursor: nat, consumed: nat)
      returns (edits: seq<Edit>, tail: seq<string>)
    requires cursor <= |lines| && RunHunks(original, lines, cursor, consumed).Success?
    ensures Drop(original, consumed) == Source(edits, tail)
    ensures RunHunks(original, lines, cursor, consumed).value == Target(edits, tail)
    ensures Says(lines, cursor, edits, tail, consumed)
    decreases |lines| - cursor
  {
    hide ParseHeader, RunBody, OldSide, NewSide, BodyAt, Slice, Drop;
    if cursor == |lines| {
      edits, tail := [], Drop(original, consumed);
    } else {
      var h := ParseHeader(lines[cursor]).value;
      var start := h.oldStart - 1;
      var body := BodySound(original, lines, cursor + 1, start);
      assert RunsTo(original, lines, cursor + 1, start, body, RunBody(original, lines, cursor + 1, start).value);
      var b := RunBody(original, lines, cursor + 1, start).value;
      var rest, end := HunksSound(original, lines, b.cursor, b.consumed);
      var e := Edit(Slice(original, consumed, start), body);
      edits, tail := [e] + rest, end;
      assert edits[0] == e && edits[1..] == rest;
      SliceThenDrop(original, consumed, start);
    }
  }

  // Cutting the gap off the remaining source.
  lemma SliceThenDrop(original: seq<string>, consumed: nat, start: nat)
    requires consumed <= start
    ensures Drop(original, consumed) == Slice(original, consumed, start) + Drop(original, start)
    ensures |Slice(original, consumed, start)| == Min(start - consumed, |Drop(original, consumed)|)
  {
  }

  // ---------- completeness: a list of edits is an accepted patch ----------

  // How a body that fits the source ends.
  function EndOf(body: seq<Line>, cursor: nat, consumed: nat): BodyEnd {
    BodyEnd(cursor + |body|, consumed + |OldSide(body)|, |OldSide(body)|, |NewSide(body)|, NewSide(body))
  }

  lemma {:induction false} BodyComplete(original: seq<string>, lines: seq<string>, cursor: nat, consumed: nat, body: seq<Line>, rest: seq<string>)
    requires BodyAt(lines, cursor, body) && cursor + |body| <= |lines|
    requires cursor + |body| == |lines| || IsHeader(lines[cursor + |body|])
    requires Drop(original, consumed) == OldSide(body) + rest
    ensures RunBody(original, lines, cursor, consumed) == Success(EndOf(body, cursor, consumed))
    ensures Drop(original, consumed + |OldSide(body)|) == rest
    decreases |body|
  {
    hide ParseLine, IsHeader, Text, OldSide, NewSide, Drop, BodyAt, RunBody, InContext, Past, EndOf, AfterLine, IsMarker;
    RunBodyTurn(original, lines, cursor, consumed);
    if body == [] {
      NothingEnds(cursor, consumed, rest);
    } else {
      var l, others := body[0], body[1..];
      assert body == [l] + others;
      BodyAtCons(lines, cursor, l, others);
      ParseText(l);
      TakesLine(original, consumed, l, others, rest);
      BodyComplete(original, lines, cursor + 1, Past(l, consumed), others, rest);
      LineEnds(l, others, cursor, consumed);
    }
  }

  lemma NothingEnds(cursor: nat, consumed: nat, rest: seq<string>)
    ensures EndOf([], cursor, consumed) == BodyEnd(cursor, consumed, 0, 0, [])
    ensures OldSide([]) + rest == rest && |OldSide([])| == 0
  {
    EmptySides();
  }

  // The first line takes its part of the old side from the source.
  lemma TakesLine(original: seq<string>, consumed: nat, l: Line, others: seq<Line>, rest: seq<string>)
    requires Drop(original, consumed) == OldSide([l] + others) + rest
    ensures InContext(original, consumed, l) && Drop(original, Past(l, consumed)) == OldSide(others) + rest
  {
    hide OldSide, NewSide, Drop;
    SidesCons(l, others);
    assert OldSide([l] + others) + rest == OldSide([l]) + (OldSide(others) + rest);
    DropStep(original, consumed, l, OldSide(others) + rest);
  }

  lemma LineEnds(l: Line, others: seq<Line>, cursor: nat, consumed: nat)
    ensures EndOf([l] + others, cursor, consumed) == AfterLine(l, EndOf(others, cursor + 1, Past(l, consumed)))
    ensures consumed + |OldSide([l] + others)| == Past(l, consumed) + |OldSide(others)|
  {
    hide OldSide, NewSide;
    SidesCons(l, others);
  }

  lemma {:induction false} HunksComplete(original: seq<string>, lines: seq<string>, cursor: nat, consumed: nat,
                                         edits: seq<Edit>, tail: seq<string>)
    requires cursor <= |lines| && Says(lines, cursor, edits, tail, consumed)
    requires Drop(original, consumed) == Source(edits, tail)
    ensures RunHunks(original, lines, cursor, consumed) == Success(Target(edits, tail))
    decreases |edits|
  {
    hide ParseHeader, RunBody, OldSide, NewSide, BodyAt, Slice, Drop;
    if edits != [] {
      var body, h := edits[0].body, ParseHeader(lines[cursor]).value;
      var start := h.oldStart - 1;
      GapIsSlice(original, consumed, start, edits, tail);
      NextIsHeader(lines, cursor + 1 + |body|, edits[1..], tail, start + |OldSide(body)|);
      BodyComplete(original, lines, cursor + 1, start, body, Source(edits[1..], tail));
      HunksComplete(original, lines, cursor + 1 + |body|, start + |OldSide(body)|, edits[1..], tail);
    }
  }

  lemma NextIsHeader(lines: seq<string>, cursor: nat, edits: seq<Edit>, tail: seq<string>, consumed: nat)
    requires Says(lines, cursor, edits, tail, consumed)
    ensures cursor == |lines| || (cursor < |lines| && IsHeader(lines[cursor]))
  {
    hide HeaderOf, BodyAt;
    if edits != [] {
      HeaderPrefix(lines[cursor]);
    }
  }

  lemma GapIsSlice(original: seq<string>, consumed: nat, start: nat, edits: seq<Edit>, tail: seq<string>)
    requires edits != [] && consumed <= start
    requires Drop(original, consumed) == Source(edits, tail)
    requires |edits[0].gap| == Min(start - consumed, |Source(edits, tail)|)
    ensures edits[0].gap == Slice(original, consumed, start)
    ensures Drop(original, start) == OldSide(edits[0].body) + Source(edits[1..], tail)
  {
    hide OldSide;
    var gap, rest := edits[0].gap, OldSide(edits[0].body) + Source(edits[1..], tail);
    SliceThenDrop(original, consumed, start);
    assert Source(edits, tail) == gap + rest;
    assert (gap + rest)[..|gap|] == gap && (gap + rest)[|gap|..] == rest;
    var slice, after := Slice(original, consumed, start), Drop(original, start);
    assert (slice + after)[..|slice|] == slice && (slice + after)[|slice|..] == after;
  }

  /** A patch is accepted, and its result is what it is, exactly when it says edits of this source. */
  lemma PatchedIffEdits(original: seq<string>, lines: seq<string>, result: seq<string>)
    requires |lines| >= 2 && lines[..2] == FILE_HEADER
    ensures Patched(original, lines) == Success(result)
            <==> exists edits, tail :: Says(lines, 2, edits, tail, 0)
                                       && original == Source(edits, tail) && result == Target(edits, tail)
  {
    hide FILE_HEADER, Says, Source, Target, RunHunks;
    assert Drop(original, 0) == original;
    if Patched(original, lines) == Success(result) {
      var edits, tail := HunksSound(original, lines, 2, 0);
    }
    forall edits, tail | Says(lines, 2, edits, tail, 0) && original == Source(edits, tail) && result == Target(edits, tail)
      ensures Patched(original, lines) == Success(result)
    {
      HunksComplete(original, lines, 2, 0, edits, tail);
    }
  }

  /** The result is longer than the source by the sum of new counts minus old counts. */
  lemma {:induction false} TargetLength(edits: seq<Edit>, tail: seq<string>)
    ensures |Target(edits, tail)| == |Source(edits, tail)| + Growth(edits)
  {
    if edits != [] {
      TargetLength(edits[1..], tail);
    }
  }

  // ---------- printing and undoing ----------

  function Texts(body: seq<Line>): (r: seq<string>)
    ensures |r| == |body| && forall i :: 0 <= i < |body| ==> r[i] == Text(body[i])
  {
    seq(|body|, i requires 0 <= i < |body| => Text(body[i]))
  }

  // The header of an edit; newStart is what `diff` prints, the interpreter ignores it.
  function HeaderFor(e: Edit, consumed: nat, shift: int): Header {
    var start := consumed + |e.gap| + 1;
    Header(start, |OldSide(e.body)|, if start + shift >= 0 then start + shift else 0, |NewSide(e.body)|)
  }

  // One hunk per edit, positioned by counting the lines before it.
  function PrintHunks(edits: seq<Edit>, consumed: nat, shift: int): seq<string> {
    if edits == [] then []
    else
      var e := edits[0];
      var removed, added := |OldSide(e.body)|, |NewSide(e.body)|;
      [PrintHeader(HeaderFor(e, consumed, shift))] + Texts(e.body)
      + PrintHunks(edits[1..], consumed + |e.gap| + removed, shift + added - removed)
  }

  function PrintPatch(edits: seq<Edit>): seq<string> { FILE_HEADER + PrintHunks(edits, 0, 0) }

  lemma {:induction false} TextsAt(before: seq<string>, body: seq<Line>, after: seq<string>)
    requires Marked(body)
    ensures BodyAt(before + Texts(body) + after, |before|, body)
  {
    hide Text;
    var lines := before + Texts(body) + after;
    forall i | 0 <= i < |body| ensures lines[|before| + i] == Text(body[i]) {
      assert lines[|before| + i] == Texts(body)[i];
    }
  }

  lemma Regroup(before: seq<string>, header: string, texts: seq<string>, rest: seq<string>)
    ensures before + ([header] + texts + rest) == (before + [header]) + texts + rest
    ensures ((before + [header]) + texts + rest)[|before|] == header
  {
  }

  lemma HeaderForEdit(edits: seq<Edit>, tail: seq<string>, consumed: nat, shift: int)
    requires edits != []
    ensures HeaderOf(HeaderFor(edits[0], consumed, shift), edits[0], consumed, |Source(edits, tail)|)
    ensures HeaderFor(edits[0], consumed, shift).oldStart == consumed + |edits[0].gap| + 1
  {
    hide OldSide, NewSide;
  }

  lemma {:induction false} PrintedSays(edits: seq<Edit>, tail: seq<string>, consumed: nat, shift: int, before: seq<string>)
    requires MarkedAll(edits)
    ensures Says(before + PrintHunks(edits, consumed, shift), |before|, edits, tail, consumed)
    decreases |edits|
  {
    hide PrintHeader, ParseHeader, IsHeader, OldSide, NewSide, Texts, BodyAt, HeaderOf, HeaderFor, Source, Marked;
    if edits != [] {
      var e := edits[0];
      var removed, added := |OldSide(e.body)|, |NewSide(e.body)|;
      var h := HeaderFor(e, consumed, shift);
      ParsePrintedHeader(h);
      HeaderForEdit(edits, tail, consumed, shift);
      var rest := PrintHunks(edits[1..], consumed + |e.gap| + removed, shift + added - removed);
      var upTo := before + [PrintHeader(h)];
      Regroup(before, PrintHeader(h), Texts(e.body), rest);
      TextsAt(upTo, e.body, rest);
      MarkedRest(edits);
      PrintedSays(edits[1..], tail, consumed + |e.gap| + removed, shift + added - removed, upTo + Texts(e.body));
    }
  }

  lemma MarkedRest(edits: seq<Edit>)
    requires MarkedAll(edits) && edits != []
    ensures Marked(edits[0].body) && MarkedAll(edits[1..])
  {
    forall i | 0 <= i < |edits[1..]| ensures Marked(edits[1..][i].body) {
      assert edits[1..][i] == edits[i + 1];
    }
  }

  /** A printed list of edits applies to its source and gives its target. */
  lemma PrintedApplies(edits: seq<Edit>, tail: seq<string>)
    requires MarkedAll(edits)
    ensures Patched(Source(edits, tail), PrintPatch(edits)) == Success(Target(edits, tail))
  {
    hide Says, Source, Target, PrintHunks;
    var lines := PrintPatch(edits);
    assert lines[..2] == FILE_HEADER;
    PrintedSays(edits, tail, 0, 0, FILE_HEADER);
    PatchedIffEdits(Source(edits, tail), lines, Target(edits, tail));
  }

  function ReverseBody(body: seq<Line>): (r: seq<Line>)
    ensures |r| == |body| && (Marked(body) ==> Marked(r))
    ensures OldSide(r) == NewSide(body) || !Marked(body)
    ensures NewSide(r) == OldSide(body) || !Marked(body)
  {
    if body == [] then []
    else
      var l := body[0];
      var marker := if l.marker == '+' then '-' else if l.marker == '-' then '+' else l.marker;
      var rest := ReverseBody(body[1..]);
      var r := [Line(marker, l.content)] + rest;
      assert r[1..] == rest;
      r
  }

  function Reverse(edits: seq<Edit>): (r: seq<Edit>)
    ensures MarkedAll(edits) ==> MarkedAll(r)
  {
    if edits == [] then []
    else
      assert forall i :: 0 <= i < |edits[1..]| ==> edits[1..][i] == edits[i + 1];
      [Edit(edits[0].gap, ReverseBody(edits[0].body))] + Reverse(edits[1..])
  }

  lemma {:induction false} ReverseSwaps(edits: seq<Edit>, tail: seq<string>)
    requires MarkedAll(edits)
    ensures Source(Reverse(edits), tail) == Target(edits, tail)
    ensures Target(Reverse(edits), tail) == Source(edits, tail)
  {
    if edits != [] {
      forall i | 0 <= i < |edits[1..]| ensures Marked(edits[1..][i].body) {
        assert edits[1..][i] == edits[i + 1];
      }
      ReverseSwaps(edits[1..], tail);
      assert Reverse(edits)[1..] == Reverse(edits[1..]);
    }
  }

  lemma {:induction false} SaysMarked(lines: seq<string>, cursor: nat, edits: seq<Edit>, tail: seq<string>, consumed: nat)
    requires Says(lines, cursor, edits, tail, consumed)
    ensures MarkedAll(edits)
    decreases |edits|
  {
    hide ParseHeader, OldSide;
    if edits != [] {
      var body := edits[0].body;
      SaysMarked(lines, cursor + 1 + |body|, edits[1..], tail, ParseHeader(lines[cursor]).value.oldStart - 1 + |OldSide(body)|);
      forall i | 0 <= i < |edits| ensures Marked(edits[i].body) {
        if i > 0 { assert edits[i] == edits[1..][i - 1]; }
      }
    }
  }

  /**
   * An accepted patch says edits that lead from the source to the result, and the patch that reverses
   * those edits, printed with its own starts, turns the result back into the source.
   */
  lemma PatchCanBeUndone(original: seq<string>, lines: seq<string>) returns (edits: seq<Edit>, tail: seq<string>, undo: seq<string>)
    requires Patched(original, lines).Success?
    ensures Says(lines, 2, edits, tail, 0) && MarkedAll(edits)
    ensures original == Source(edits, tail) && Patched(original, lines).value == Target(edits, tail)
    ensures undo == PrintPatch(Reverse(edits))
    ensures Patched(Patched(original, lines).value, undo) == Success(original)
  {
    assert Drop(original, 0) == original;
    edits, tail := HunksSound(original, lines, 2, 0);
    SaysMarked(lines, 2, edits, tail, 0);
    ReverseSwaps(edits, tail);
    undo := PrintPatch(Reverse(edits));
    PrintedApplies(Reverse(edits), tail);
  }

  // _apply_patch, from text to text.
  function PatchText(source: string, patch: string): Result<string, PatchError> {
    match Patched(SplitLines(source), SplitLines(patch))
    case Success(lines) => Success(Concat(lines))
    case Failure(e) => Failure(e)
  }

  // ---------- the interpreter ----------

  method ApplyPatch(original: seq<string>, lines: seq<string>) returns (r: Result<seq<string>, PatchError>)
    ensures r == Patched(original, lines)
  {
    hide FILE_HEADER, ParseHeader, ParseLine, IsHeader, RunBody, Slice, Drop;
    if |lines| < 2 || lines[..2] != FILE_HEADER {
      return Failure(WrongFile);
    }
    var result: seq<string> := [];
    var consumed: nat := 0;
    var cursor: nat := 2;
    AfterNothing(RunHunks(original, lines, 2, 0));
    while cursor < |lines|
      invariant cursor <= |lines|
      invariant Patched(original, lines) == After(result, RunHunks(original, lines, cursor, consumed))
    {
      var parsed := ParseHeader(lines[cursor]);
      if parsed.None? {
        return Failure(MalformedHeader);
      }
      var h := parsed.value;
      var start := h.oldStart - 1;
      if start < consumed {
        return Failure(Overlapping);
      }
      var b := RunHunkBody(original, lines, cursor + 1, start);
      if b.Failure? {
        return Failure(b.error);
      }
      if b.value.oldSeen != h.oldCount || b.value.newSeen != h.newCount {
        return Failure(WrongLength);
      }
      AfterHunk(result, Slice(original, consumed, start), b.value.produced,
        RunHunks(original, lines, b.value.cursor, b.value.consumed));
      result := result + Slice(original, consumed, start) + b.value.produced;
      cursor, consumed := b.value.cursor, b.value.consumed;
    }
    return Success(result + Drop(original, consumed));
  }

  method ApplyPatchText(source: string, patch: string) returns (r: Result<string, PatchError>)
    ensures r == PatchText(source, patch)
  {
    hide Patched;
    var lines := ApplyPatch(SplitLines(source), SplitLines(patch));
    match lines
    case Success(result) => return Success(Concat(result));
    case Failure(e) => return Failure(e);
  }

  // The inner loop: one hunk body.
  method RunHunkBody(original: seq<string>, lines: seq<string>, first: nat, start: nat) returns (r: Result<BodyEnd, PatchError>)
    requires first <= |lines|
    ensures r == RunBody(original, lines, first, start)
  {
    hide ParseLine, IsHeader, OldSide, NewSide, RunBody;
    var cursor: nat, consumed: nat := first, start;
    var oldSeen, newSeen := 0, 0;
    var result: seq<string> := [];
    AfterBodyNothing(RunBody(original, lines, first, start));
    while cursor < |lines| && !IsHeader(lines[cursor])
      invariant cursor <= |lines|
      invariant RunBody(original, lines, first, start)
                == AfterBody(oldSeen, newSeen, result, RunBody(original, lines, cursor, consumed))
    {
      RunBodyTurn(original, lines, cursor, consumed);
      var parsed := ParseLine(lines[cursor]);
      if parsed.None? {
        return Failure(UnexpectedContent);
      }
      var l := parsed.value;
      SidesCons(l, []);
      if l.marker != '+' {
        if consumed >= |original| || original[consumed] != l.content {
          return Failure(ContextDiffers);
        }
      }
      AfterBodyLine(oldSeen, newSeen, result, l, RunBody(original, lines, cursor + 1, Past(l, consumed)));
      if l.marker != '+' {
        consumed := consumed + 1;
        oldSeen := oldSeen + 1;
      }
      if l.marker != '-' {
        result := result + [l.content];
        newSeen := newSeen + 1;
      } else {
        assert result + NewSide([l]) == result;
      }
      cursor := cursor + 1;
    }
    RunBodyTurn(original, lines, cursor, consumed);
    assert result + [] == result;
    return Success(BodyEnd(cursor, consumed, oldSeen, newSeen, result));
  }

  ghost function After(done: seq<string>, r: Result<seq<string>, PatchError>): Result<seq<string>, PatchError> {
    if r.Success? then Success(done + r.value) else r
  }

  lemma AfterNothing(r: Result<seq<string>, PatchError>)
    ensures After([], r) == r
  {
    if r.Success? {
      assert [] + r.value == r.value;
    }
  }

  lemma AfterHunk(done: seq<string>, gap: seq<string>, produced: seq<string>, r: Result<seq<string>, PatchError>)
    ensures r.Success? ==> done + (gap + (produced + r.value)) == (done + gap + produced) + r.value
  {
  }

  ghost function AfterBody(oldSeen: nat, newSeen: nat, produced: seq<string>, r: Result<BodyEnd, PatchError>): Result<BodyEnd, PatchError> {
    if r.Success?
    then Success(BodyEnd(r.value.cursor, r.value.consumed, oldSeen + r.value.oldSeen, newSeen + r.value.newSeen,
                         produced + r.value.produced))
    else r
  }

  lemma AfterBodyNothing(r: Result<BodyEnd, PatchError>)
    ensures AfterBody(0, 0, [], r) == r
  {
    if r.Success? {
      assert [] + r.value.produced == r.value.produced;
    }
  }

  lemma AfterBodyLine(oldSeen: nat, newSeen: nat, produced: seq<string>, l: Line, r: Result<BodyEnd, PatchError>)
    ensures r.Success? ==> produced + (NewSide([l]) + r.value.produced) == (produced + NewSide([l])) + r.value.produced
  {
  }
}
