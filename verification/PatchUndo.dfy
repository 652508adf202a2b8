/** When a patch can be undone on texts, where the result is joined and split into lines again. */
module PatchUndo {
  import opened Wrappers
  import opened Decimal
  import opened Strings
  import opened TextLines
  import opened UnifiedDiff

  // ---------- a printed patch is a list of lines ----------

  predicate Unbroken(s: string) { forall i :: 0 <= i < |s| ==> !IsBreak(s[i]) }

  lemma {:induction false} EndedLine(s: string)
    requires Unbroken(s)
    ensures IsLine(s + "\n") && IsEnded(s + "\n")
  {
    if s == "" {
      assert s + "\n" == "\n";
    } else {
      assert (s + "\n")[1..] == s[1..] + "\n";
      EndedLine(s[1..]);
    }
  }

  lemma HeaderIsLine(h: Header)
    ensures IsLine(PrintHeader(h)) && IsEnded(PrintHeader(h)) && PrintHeader(h)[0] == '@'
  {
    hide Digits, IsLine, IsEnded;
    var s := "@@ -" + (Digits(h.oldStart) + "," + (Digits(h.oldCount) + " +" + (Digits(h.newStart) + "," + (Digits(h.newCount) + " @@"))));
    assert s + "\n" == PrintHeader(h);
    EndedLine(s);
  }

  lemma FileHeaderLines()
    ensures |FILE_HEADER| == 2 && AreLines(FILE_HEADER) && FILE_HEADER[1] != "" && FILE_HEADER[1][|FILE_HEADER[1]| - 1] == '\n'
  {
    hide IsLine, IsEnded, Unbroken, IsBreak;
    var a, b := "--- a/accelerate/utils/modeling.py", "+++ b/accelerate/utils/modeling.py";
    OldFileLine();
    NewFileLine();
    assert FILE_HEADER == ["--- a/accelerate/utils/modeling.py\n", "+++ b/accelerate/utils/modeling.py\n"];
    assert FILE_HEADER[0] == a + "\n" && FILE_HEADER[1] == b + "\n";
    PairOfLines(a + "\n", b + "\n");
  }

  lemma OldFileLine()
    ensures IsLine("--- a/accelerate/utils/modeling.py" + "\n") && IsEnded("--- a/accelerate/utils/modeling.py" + "\n")
  {
    hide IsLine;
    EndedLine("--- a/accelerate/utils/modeling.py");
  }

  lemma NewFileLine()
    ensures IsLine("+++ b/accelerate/utils/modeling.py" + "\n") && IsEnded("+++ b/accelerate/utils/modeling.py" + "\n")
  {
    hide IsLine;
    EndedLine("+++ b/accelerate/utils/modeling.py");
  }

  lemma PairOfLines(a: string, b: string)
    requires IsLine(a) && IsLine(b) && IsEnded(a) && a[|a| - 1] == '\n'
    ensures AreLines([a, b])
  {
    hide LineLength;
  }

  // Changing the marker of a body line changes neither that it is a line nor its end.
  lemma MarkerChange(a: char, b: char, content: string)
    requires IsMarker(a) && IsMarker(b)
    ensures IsLine([a] + content) <==> IsLine([b] + content)
    ensures IsEnded([a] + content) <==> IsEnded([b] + content)
  {
    assert ([a] + content)[1..] == content && ([b] + content)[1..] == content;
  }

  // Lines of a patch: each is one line, all but the last are ended, and none starts with a line end.
  ghost predicate PatchLines(lines: seq<string>) {
    && (forall i :: 0 <= i < |lines| ==> IsLine(lines[i]) && !IsBreak(lines[i][0]))
    && forall i :: 0 <= i < |lines| - 1 ==> IsEnded(lines[i])
  }

  lemma PatchLinesAre(lines: seq<string>)
    requires PatchLines(lines)
    ensures AreLines(lines)
  {
    hide LineLength;
    forall i, j | 0 <= i && j == i + 1 && j < |lines| ensures Adjoins(lines[i], lines[j]) {
      assert IsLine(lines[j]) && !IsBreak(lines[j][0]) && IsEnded(lines[i]);
    }
  }

  lemma BodyTexts(lines: seq<string>, cursor: nat, body: seq<Line>, i: nat)
    requires AreLines(lines) && BodyAt(lines, cursor, body) && i < |body|
    ensures var text := Texts(ReverseBody(body))[i];
            && IsLine(text) && IsMarker(text[0]) && (cursor + i < |lines| - 1 ==> IsEnded(text))
  {
    hide IsLine, IsEnded, ReverseBody, AreLines, BodyAt, IsMarker, Marked;
    LineOfBody(lines, cursor, body, i);
    ReversedText(body, i);
    if cursor + i < |lines| - 1 {
      EndedBefore(lines, cursor + i);
    }
  }

  lemma LineOfBody(lines: seq<string>, cursor: nat, body: seq<Line>, i: nat)
    requires AreLines(lines) && BodyAt(lines, cursor, body) && i < |body|
    ensures cursor + i < |lines| && lines[cursor + i] == Text(body[i]) && IsLine(Text(body[i])) && Marked(body)
  {
    hide IsLine, IsMarker, Adjoins;
  }

  lemma ReversedText(body: seq<Line>, i: nat)
    requires Marked(body) && i < |body|
    ensures var text := Texts(ReverseBody(body))[i];
            && text != "" && IsMarker(text[0])
            && (IsLine(Text(body[i])) <==> IsLine(text)) && (IsEnded(Text(body[i])) <==> IsEnded(text))
  {
    assert IsMarker(body[i].marker);
    hide IsLine, IsEnded, ReverseBody, IsMarker, Marked;
    ReversedLine(body, i);
    MarkerChange(body[i].marker, ReverseBody(body)[i].marker, body[i].content);
  }

  lemma EndedBefore(lines: seq<string>, i: nat)
    requires AreLines(lines) && i < |lines| - 1
    ensures IsEnded(lines[i])
  {
    assert Adjoins(lines[i], lines[i + 1]);
  }

  lemma {:induction false} ReversedLine(body: seq<Line>, i: nat)
    requires Marked(body) && i < |body|
    ensures ReverseBody(body)[i].content == body[i].content && IsMarker(ReverseBody(body)[i].marker)
  {
    if i > 0 {
      ReversedLine(body[1..], i - 1);
    }
  }

  // The hunks that undo a patch are lines, as the patch itself is.
  lemma {:induction false} UndoHunks(lines: seq<string>, cursor: nat, edits: seq<Edit>, tail: seq<string>, consumed: nat, at: nat, shift: int)
    requires AreLines(lines) && Says(lines, cursor, edits, tail, consumed)
    ensures PatchLines(PrintHunks(Reverse(edits), at, shift))
    ensures PrintHunks(Reverse(edits), at, shift) == [] <==> edits == []
    decreases |edits|
  {
    hide ParseHeader, PrintHeader, OldSide, NewSide, IsLine, IsEnded, Texts, HeaderFor, ReverseBody, AreLines, BodyAt, Says, PatchLines;
    if edits != [] {
      var body, reversed := edits[0].body, Reverse(edits);
      var e := reversed[0];
      var removed, added := |OldSide(e.body)|, |NewSide(e.body)|;
      SaysStep(lines, cursor, edits, tail, consumed);
      UndoHunks(lines, cursor + 1 + |body|, edits[1..], tail, ParseHeader(lines[cursor]).value.oldStart - 1 + |OldSide(body)|,
        at + |e.gap| + removed, shift + added - removed);
      assert reversed[1..] == Reverse(edits[1..]);
      HeaderIsLine(HeaderFor(e, at, shift));
      UndoBody(lines, cursor + 1, body);
      OneHunk(PrintHeader(HeaderFor(e, at, shift)), Texts(e.body),
        PrintHunks(reversed[1..], at + |e.gap| + removed, shift + added - removed));
    } else {
      NoPatchLines();
    }
  }

  lemma NoPatchLines()
    ensures PatchLines([])
  {
  }

  // What the hunks say of the first edit and of the others.
  lemma SaysStep(lines: seq<string>, cursor: nat, edits: seq<Edit>, tail: seq<string>, consumed: nat)
    requires Says(lines, cursor, edits, tail, consumed) && edits != []
    ensures cursor < |lines| && ParseHeader(lines[cursor]).Some?
    ensures var h, body := ParseHeader(lines[cursor]).value, edits[0].body;
            && h.oldStart > 0 && BodyAt(lines, cursor + 1, body) && cursor + 1 + |body| <= |lines|
            && Says(lines, cursor + 1 + |body|, edits[1..], tail, h.oldStart - 1 + |OldSide(body)|)
            && (edits[1..] != [] ==> cursor + 1 + |body| < |lines|)
  {
    hide ParseHeader, OldSide;
  }

  lemma UndoBody(lines: seq<string>, cursor: nat, body: seq<Line>)
    requires AreLines(lines) && BodyAt(lines, cursor, body) && cursor + |body| <= |lines|
    ensures forall i :: 0 <= i < |body| ==> IsLine(Texts(ReverseBody(body))[i]) && IsMarker(Texts(ReverseBody(body))[i][0])
    ensures forall i :: 0 <= i < |body| && (i < |body| - 1 || cursor + |body| < |lines|) ==> IsEnded(Texts(ReverseBody(body))[i])
  {
    hide Texts, ReverseBody, AreLines, BodyAt, LineLength, IsEnded;
    forall i | 0 <= i < |body|
      ensures IsLine(Texts(ReverseBody(body))[i]) && IsMarker(Texts(ReverseBody(body))[i][0])
      ensures i < |body| - 1 || cursor + |body| < |lines| ==> IsEnded(Texts(ReverseBody(body))[i])
    {
      BodyTexts(lines, cursor, body, i);
    }
  }

  lemma OneHunk(header: string, texts: seq<string>, rest: seq<string>)
    requires IsLine(header) && IsEnded(header) && header[0] == '@' && PatchLines(rest)
    requires forall i :: 0 <= i < |texts| ==> IsLine(texts[i]) && IsMarker(texts[i][0])
    requires forall i :: 0 <= i < |texts| && (i < |texts| - 1 || rest != []) ==> IsEnded(texts[i])
    ensures PatchLines([header] + texts + rest)
  {
    hide LineLength, IsEnded;
    var all := [header] + texts + rest;
    forall i | 0 <= i < |all| ensures IsLine(all[i]) && !IsBreak(all[i][0]) && (i < |all| - 1 ==> IsEnded(all[i])) {
      if i > |texts| {
        assert all[i] == rest[i - 1 - |texts|];
      } else if i > 0 {
        assert all[i] == texts[i - 1];
      }
    }
  }

  /** The patch that undoes a patch, joined to a text, is split into the same lines again. */
  lemma UndoIsLines(lines: seq<string>, edits: seq<Edit>, tail: seq<string>)
    requires AreLines(lines) && Says(lines, 2, edits, tail, 0)
    ensures SplitLines(Concat(PrintPatch(Reverse(edits)))) == PrintPatch(Reverse(edits))
  {
    hide IsLine, IsEnded, Says, SplitLines, Concat, FILE_HEADER, PrintHunks;
    UndoHunks(lines, 2, edits, tail, 0, 0, 0);
    FileHeaderLines();
    var hunks := PrintHunks(Reverse(edits), 0, 0);
    HeaderThenHunks(FILE_HEADER, hunks);
    SplitIffLines(PrintPatch(Reverse(edits)));
  }

  lemma HeaderThenHunks(header: seq<string>, hunks: seq<string>)
    requires AreLines(header) && |header| == 2 && header[1] != "" && header[1][|header[1]| - 1] == '\n' && PatchLines(hunks)
    ensures AreLines(header + hunks)
  {
    hide LineLength;
    PatchLinesAre(hunks);
    var all := header + hunks;
    forall i, j | 0 <= i && j == i + 1 && j < |all| ensures Adjoins(all[i], all[j]) {
      if i >= 2 {
        assert all[i] == hunks[i - 2] && all[j] == hunks[j - 2];
      } else if i == 1 {
        assert all[j] == hunks[0] && all[i] == header[1] && !IsBreak(hunks[0][0]);
      } else {
        assert all[i] == header[0] && all[j] == header[1];
      }
    }
    forall i | 0 <= i < |all| ensures IsLine(all[i]) {
      assert if i >= 2 then all[i] == hunks[i - 2] else all[i] == header[i];
    }
    assert AreLines(all);
  }

  // ---------- what a printed patch says ----------

  // The edits e are the printed edits f, but that a source too short for a gap ends it early.
  ghost predicate Mirrors(f: seq<Edit>, e: seq<Edit>, tail: seq<string>)
    decreases |f|
  {
    if f == [] then e == []
    else
      && e != [] && e[0].body == f[0].body && |e[0].gap| == Min(|f[0].gap|, |Source(e, tail)|)
      && Mirrors(f[1..], e[1..], tail)
  }

  lemma SameBody(lines: seq<string>, cursor: nat, a: seq<Line>, b: seq<Line>)
    requires BodyAt(lines, cursor, a) && BodyAt(lines, cursor, b)
    requires cursor + |a| == |lines| || IsHeader(lines[cursor + |a|])
    requires cursor + |b| == |lines| || IsHeader(lines[cursor + |b|])
    ensures a == b
  {
    hide IsHeader, Text, ParseLine;
    if |a| < |b| {
      ParseText(b[|a|]);
      assert false;
    }
    if |b| < |a| {
      ParseText(a[|b|]);
      assert false;
    }
    forall i | 0 <= i < |a| ensures a[i] == b[i] {
      ParseText(a[i]);
      ParseText(b[i]);
      assert lines[cursor + i] == Text(a[i]) == Text(b[i]);
    }
  }

  lemma {:induction false} PrintedDetermines(f: seq<Edit>, e: seq<Edit>, tail: seq<string>, at: nat, shift: int, before: seq<string>)
    requires MarkedAll(f) && Says(before + PrintHunks(f, at, shift), |before|, e, tail, at)
    ensures Mirrors(f, e, tail)
    decreases |f|
  {
    hide PrintHeader, ParseHeader, IsHeader, OldSide, NewSide, Texts, BodyAt, Source, Marked, MarkedAll;
    var lines := before + PrintHunks(f, at, shift);
    if f != [] {
      var body := f[0].body;
      var removed, added := |OldSide(body)|, |NewSide(body)|;
      var h := HeaderFor(f[0], at, shift);
      var rest := PrintHunks(f[1..], at + |f[0].gap| + removed, shift + added - removed);
      var upTo := before + [PrintHeader(h)];
      ParsePrintedHeader(h);
      Regroup(before, PrintHeader(h), Texts(body), rest);
      assert e != [];
      MarkedRest(f);
      TextsAt(upTo, body, rest);
      NextIsHeader(lines, |before| + 1 + |e[0].body|, e[1..], tail, h.oldStart - 1 + |OldSide(e[0].body)|);
      PrintedNext(upTo + Texts(body), f[1..], at + |f[0].gap| + removed, shift + added - removed);
      SameBody(lines, |before| + 1, e[0].body, body);
      assert (upTo + Texts(body)) + rest == lines;
      PrintedDetermines(f[1..], e[1..], tail, at + |f[0].gap| + removed, shift + added - removed, upTo + Texts(body));
    }
  }

  lemma PrintedNext(before: seq<string>, f: seq<Edit>, at: nat, shift: int)
    ensures var lines := before + PrintHunks(f, at, shift); |before| == |lines| || IsHeader(lines[|before|])
  {
    hide PrintHeader, IsHeader, Texts;
    if f != [] {
      ParsePrintedHeader(HeaderFor(f[0], at, shift));
    }
  }

  // ---------- the same text in other lines ----------

  lemma SameText(a: seq<string>, b: seq<string>)
    requires AreLines(a) && AreLines(b) && Concat(a) == Concat(b)
    ensures a == b
  {
    SplitIffLines(a);
    SplitIffLines(b);
  }

  // Lines in front of nonempty text are fewer than the lines of both.
  lemma MoreLines(lines: seq<string>, rest: string)
    requires AreLines(lines) && rest != "" && Open(lines, rest[0])
    ensures |SplitLines(Concat(lines) + rest)| > |lines|
  {
    SplitAhead(lines, rest);
  }

  // Lines whose text goes on into the text behind other lines are more than those.
  lemma LongerText(front: seq<string>, behind: seq<string>, d: string, rest: string, longer: seq<string>)
    requires AreLines(front + behind) && AreLines(longer) && d != ""
    requires Concat(longer) == Concat(front) + d && Concat(behind) == d + rest
    ensures |longer| > |front| && behind != []
  {
    hide AreLines, Open, SplitLines, Concat;
    FrontIsOpen(front, behind);
    NonemptyText(behind);
    SplitIffLines(longer);
    assert Concat(behind)[0] == d[0];
    MoreLines(front, d);
  }

  // Two gaps in front of the same text, and of the same text after the edit, are the same gap.
  lemma SameGap(g: seq<string>, behind: seq<string>, x: string, g': seq<string>, behind': seq<string>, y: string)
    requires AreLines(g + behind) && AreLines(g' + behind')
    requires Concat(g) + x == Concat(g') + Concat(behind') && Concat(g) + Concat(behind) == Concat(g') + y
    requires |g'| == |g| || (|g'| < |g| && behind' == [])
    ensures g == g'
  {
    hide AreLines, Open, Concat;
    FrontIsOpen(g, behind);
    FrontIsOpen(g', behind');
    NotLonger(g, behind, g', y);
    NotLonger(g', behind', g, x);
    var d := Overhang(Concat(g), x, Concat(g'), Concat(behind'));
    SameText(g, g');
  }

  // No more lines in front of the same text are no longer.
  lemma NotLonger(front: seq<string>, behind: seq<string>, other: seq<string>, rest: string)
    requires AreLines(front + behind) && AreLines(other) && Concat(front) + Concat(behind) == Concat(other) + rest
    requires |other| <= |front| || behind == []
    ensures |Concat(other)| <= |Concat(front)|
  {
    hide AreLines, Concat;
    if |Concat(front)| < |Concat(other)| {
      var d := Overhang(Concat(front), Concat(behind), Concat(other), rest);
      LongerText(front, behind, d, rest, other);
    }
  }

  // Of two texts in front of the same whole, the longer one goes on with what is behind the shorter one.
  lemma Overhang(a: string, x: string, b: string, y: string) returns (d: string)
    requires a + x == b + y && |a| <= |b|
    ensures b == a + d && x == d + y && (|a| < |b| ==> d != "") && (|a| == |b| ==> a == b)
  {
    d := b[|a|..];
    var whole := a + x;
    assert a == whole[..|a|] && x == whole[|a|..];
    assert b == whole[..|b|] && y == whole[|b|..];
    assert whole[..|b|] == whole[..|a|] + whole[|a|..|b|];
  }

  lemma NonemptyText(lines: seq<string>)
    ensures lines == [] ==> Concat(lines) == ""
  {
  }

  // Dropping the same lines in front.
  lemma SameRest(front: seq<string>, a: seq<string>, b: seq<string>)
    requires Concat(front + a) == Concat(front + b)
    ensures Concat(a) == Concat(b)
  {
    hide Concat;
    ConcatAppend(front, a);
    ConcatAppend(front, b);
    assert (Concat(front) + Concat(a))[|Concat(front)|..] == Concat(a);
    assert (Concat(front) + Concat(b))[|Concat(front)|..] == Concat(b);
  }

  /** If the undone text is the source text, the patch found the lines it was made for. */
  lemma {:induction false} Lockstep(f: seq<Edit>, tail: seq<string>, e: seq<Edit>, tail': seq<string>)
    requires Mirrors(f, e, tail') && AreLines(Target(f, tail)) && AreLines(Source(e, tail'))
    requires Concat(Source(f, tail)) == Concat(Source(e, tail')) && Concat(Target(f, tail)) == Concat(Target(e, tail'))
    ensures Source(f, tail) == Source(e, tail')
    decreases |f|
  {
    hide AreLines, Concat, OldSide, NewSide;
    if f == [] {
      SameText(tail, tail');
    } else {
      var g, g', n, o := f[0].gap, e[0].gap, OldSide(f[0].body), NewSide(f[0].body);
      var r, r', t, u := Source(f[1..], tail), Source(e[1..], tail'), Target(f[1..], tail), Target(e[1..], tail');
      ConcatAppend(g, n + r);
      ConcatAppend(g', n + r');
      ConcatAppend(g, o + t);
      ConcatAppend(g', o + u);
      SameGap(g, o + t, Concat(n + r), g', n + r', Concat(o + u));
      assert g + (n + r) == (g + n) + r && g + (n + r') == (g + n) + r';
      assert g + (o + t) == (g + o) + t && g + (o + u) == (g + o) + u;
      SameRest(g + n, r, r');
      SameRest(g + o, t, u);
      FrontIsOpen(g + o, t);
      FrontIsOpen(g + n, r');
      Lockstep(f[1..], tail, e[1..], tail');
    }
  }

  /**
   * Undoing a patch on texts: the reversed patch turns the result text back into the source text exactly
   * when the lines of the result survive being joined, each being one line and all but the last ended.
   */
  lemma UndoRestoresText(source: string, patch: string) returns (edits: seq<Edit>, tail: seq<string>, undo: string)
    requires PatchText(source, patch).Success?
    ensures Says(SplitLines(patch), 2, edits, tail, 0) && SplitLines(source) == Source(edits, tail)
    ensures PatchText(source, patch).value == Concat(Target(edits, tail))
    ensures undo == Concat(PrintPatch(Reverse(edits)))
    ensures PatchText(PatchText(source, patch).value, undo) == Success(source) <==> AreLines(Target(edits, tail))
  {
    hide Patched, AreLines, Says, Source, Target, PrintPatch, SplitLines, Concat, Reverse, MarkedAll;
    var original, lines := SplitLines(source), SplitLines(patch);
    var printed;
    edits, tail, printed := PatchCanBeUndone(original, lines);
    undo := Concat(printed);
    var result := Target(edits, tail);
    SplitAreLines(patch);
    UndoIsLines(lines, edits, tail);
    SplitIffLines(result);
    ConcatSplit(source);
    if PatchText(Concat(result), undo) == Success(source) && !AreLines(result) {
      ResultLinesFound(source, edits, tail, SplitLines(Concat(result)));
      assert false;
    }
  }

  // Undone to the source text, the lines of the result text are the lines of the result.
  lemma ResultLinesFound(source: string, edits: seq<Edit>, tail: seq<string>, found: seq<string>)
    requires MarkedAll(edits) && SplitLines(source) == Source(edits, tail)
    requires found == SplitLines(Concat(Target(edits, tail)))
    requires Patched(found, PrintPatch(Reverse(edits))).Success? && Concat(Patched(found, PrintPatch(Reverse(edits))).value) == source
    ensures found == Target(edits, tail)
  {
    hide AreLines, Says, Source, Target, SplitLines, Concat, Reverse, MarkedAll, PrintHunks, FILE_HEADER, Patched;
    var f := Reverse(edits);
    var undone := Patched(found, PrintPatch(f)).value;
    ReverseSwaps(edits, tail);
    FileHeaderLines();
    assert PrintPatch(f)[..2] == FILE_HEADER;
    PatchedIffEdits(found, PrintPatch(f), undone);
    var e, tail' :| Says(PrintPatch(f), 2, e, tail', 0) && found == Source(e, tail') && undone == Target(e, tail');
    PrintedDetermines(f, e, tail', 0, 0, FILE_HEADER);
    SplitAreLines(source);
    ConcatSplit(source);
    SplitAreLines(Concat(Target(edits, tail)));
    ConcatSplit(Concat(Target(edits, tail)));
    Lockstep(f, tail, e, tail');
  }

  // ---------- when the result stays lines, said of the source and the patch ----------

  // This holds of every added text.
  ghost predicate AddedAre(edits: seq<Edit>, p: string -> bool) { forall k :: 0 <= k < |edits| ==> AddedIn(edits[k].body, p) }

  ghost predicate AddedIn(body: seq<Line>, p: string -> bool) {
    forall m :: 0 <= m < |body| && body[m].marker == '+' ==> p(body[m].content)
  }

  ghost predicate EndedButLast(lines: seq<string>) { forall i :: 0 <= i < |lines| - 1 ==> IsEnded(lines[i]) }

  // A line ending in "\r" in front of a line "\n".
  predicate MakesOneBreak(line: string, next: string) { line != "" && line[|line| - 1] == '\r' && next == "\n" }

  ghost predicate NoBreakMade(lines: seq<string>) {
    forall i, j :: 0 <= i && j == i + 1 && j < |lines| ==> !MakesOneBreak(lines[i], lines[j])
  }

  lemma AddedTail(edits: seq<Edit>, p: string -> bool)
    requires edits != []
    ensures AddedAre(edits, p) <==> AddedIn(edits[0].body, p) && AddedAre(edits[1..], p)
  {
    hide AddedIn;
    var rest := edits[1..];
    assert forall k :: 0 <= k < |rest| ==> rest[k] == edits[k + 1];
    if AddedIn(edits[0].body, p) && AddedAre(rest, p) {
      forall k | 0 <= k < |edits| ensures AddedIn(edits[k].body, p) {
        if k > 0 {
          assert edits[k] == rest[k - 1];
        }
      }
    }
    if AddedAre(edits, p) {
      forall k | 0 <= k < |rest| ensures AddedIn(rest[k].body, p) {
        assert rest[k] == edits[k + 1];
      }
    }
  }

  // What holds of all old lines and all added lines holds of all new lines, and the other way for the added ones.
  lemma {:induction false} NewSideAll(body: seq<Line>, p: string -> bool)
    requires forall t :: t in OldSide(body) ==> p(t)
    ensures (forall t :: t in NewSide(body) ==> p(t)) <==> AddedIn(body, p)
  {
    if body != [] {
      var l, rest := body[0], body[1..];
      assert body == [l] + rest;
      assert forall m :: 1 <= m < |body| ==> body[m] == rest[m - 1];
      SidesCons(l, rest);
      hide OldSide, NewSide;
      NewSideAll(rest, p);
      NewSideHead(l, rest, p);
    }
  }

  lemma NewSideHead(l: Line, rest: seq<Line>, p: string -> bool)
    requires l.marker != '+' ==> p(l.content)
    ensures (forall t :: t in NewSide([l]) + NewSide(rest) ==> p(t))
            <==> (l.marker == '+' ==> p(l.content)) && forall t :: t in NewSide(rest) ==> p(t)
  {
    SidesCons(l, []);
    hide OldSide, NewSide;
    if forall t :: t in NewSide([l]) + NewSide(rest) ==> p(t) {
      if l.marker == '+' {
        assert NewSide([l])[0] in NewSide([l]) + NewSide(rest);
      }
      forall t | t in NewSide(rest) ensures p(t) {
        assert t in NewSide([l]) + NewSide(rest);
      }
    }
  }

  lemma {:induction false} TargetAll(edits: seq<Edit>, tail: seq<string>, p: string -> bool)
    requires forall t :: t in Source(edits, tail) ==> p(t)
    ensures (forall t :: t in Target(edits, tail) ==> p(t)) <==> AddedAre(edits, p)
  {
    hide OldSide, NewSide;
    if edits != [] {
      var gap, old_, rest := edits[0].gap, OldSide(edits[0].body), Source(edits[1..], tail);
      InThree(gap, old_, rest, p);
      TargetAll(edits[1..], tail, p);
      NewSideAll(edits[0].body, p);
      InThree(gap, NewSide(edits[0].body), Target(edits[1..], tail), p);
      AddedTail(edits, p);
    }
  }

  lemma InThree(a: seq<string>, b: seq<string>, c: seq<string>, p: string -> bool)
    ensures (forall t :: t in a + (b + c) ==> p(t)) <==> (forall t :: t in a ==> p(t)) && (forall t :: t in b ==> p(t)) && forall t :: t in c ==> p(t)
  {
    if forall t :: t in a + (b + c) ==> p(t) {
      forall t | t in a || t in b || t in c ensures p(t) {
        assert t in b || t in c ==> t in b + c;
        assert t in a + (b + c);
      }
    }
  }

  // What holds of every marked line behind its marker holds of every added text.
  ghost predicate MarkedAre(lines: seq<string>, p: string -> bool) {
    forall i :: 0 <= i < |lines| && lines[i] != "" && IsMarker(lines[i][0]) ==> p(lines[i][1..])
  }

  lemma {:induction false} AddedOfPatch(lines: seq<string>, cursor: nat, edits: seq<Edit>, tail: seq<string>, consumed: nat, p: string -> bool)
    requires MarkedAre(lines, p) && Says(lines, cursor, edits, tail, consumed)
    ensures AddedAre(edits, p)
    decreases |edits|
  {
    hide ParseHeader, OldSide, Says, BodyAt, MarkedAre;
    if edits != [] {
      SaysStep(lines, cursor, edits, tail, consumed);
      var body := edits[0].body;
      AddedOfBody(lines, cursor + 1, body, p);
      AddedOfPatch(lines, cursor + 1 + |body|, edits[1..], tail, ParseHeader(lines[cursor]).value.oldStart - 1 + |OldSide(body)|, p);
      AddedTail(edits, p);
    }
  }

  lemma AddedOfBody(lines: seq<string>, cursor: nat, body: seq<Line>, p: string -> bool)
    requires MarkedAre(lines, p) && BodyAt(lines, cursor, body)
    ensures AddedIn(body, p)
  {
    hide IsMarker;
    forall m | 0 <= m < |body| ensures p(body[m].content) {
      assert lines[cursor + m] == Text(body[m]) && lines[cursor + m][0] == body[m].marker;
      assert Text(body[m])[1..] == body[m].content;
    }
  }

  // A part of a line, and a whole line with its end.
  predicate IsPart(t: string) { t == "" || IsLine(t) }

  predicate IsWhole(t: string) { IsLine(t) && IsEnded(t) }

  predicate HasNoReturn(t: string) { '\r' !in t }

  lemma BehindMarker(line: string)
    requires IsLine(line) && IsMarker(line[0])
    ensures IsPart(line[1..]) && (IsEnded(line) ==> IsWhole(line[1..]))
  {
  }

  lemma PartsOfPatch(lines: seq<string>)
    requires AreLines(lines)
    ensures MarkedAre(lines, IsPart)
  {
    hide LineLength, IsMarker, IsEnded;
    forall i | 0 <= i < |lines| && lines[i] != "" && IsMarker(lines[i][0]) ensures IsPart(lines[i][1..]) {
      BehindMarker(lines[i]);
    }
  }

  lemma LinesByParts(lines: seq<string>)
    requires forall t :: t in lines ==> IsPart(t)
    ensures AreLines(lines) <==> (forall t :: t in lines ==> t != "") && EndedButLast(lines) && NoBreakMade(lines)
  {
    hide LineLength;
    if AreLines(lines) {
      forall i | 0 <= i < |lines| - 1 ensures IsEnded(lines[i]) {
        EndedBefore(lines, i);
      }
      forall i, j | 0 <= i && j == i + 1 && j < |lines| ensures !MakesOneBreak(lines[i], lines[j]) {
        assert Adjoins(lines[i], lines[j]);
      }
      SourceParts(lines);
    }
    if (forall t :: t in lines ==> t != "") && EndedButLast(lines) && NoBreakMade(lines) {
      forall i | 0 <= i < |lines| ensures IsLine(lines[i]) {
        assert lines[i] in lines;
      }
      forall i, j | 0 <= i && j == i + 1 && j < |lines| ensures Adjoins(lines[i], lines[j]) {
        assert lines[j] in lines && IsEnded(lines[i]) && !MakesOneBreak(lines[i], lines[j]);
        if lines[j][0] == '\n' {
          OneBreakLine(lines[j]);
        }
      }
    }
  }

  lemma OneBreakLine(s: string)
    requires IsLine(s) && s[0] == '\n'
    ensures s == "\n"
  {
  }

  predicate IsNonempty(t: string) { t != "" }

  /**
   * The lines of the result survive being joined exactly when no added text is empty, every added line and
   * every source line is ended unless it comes last, and no line ending in "\r" comes before a line "\n".
   */
  lemma ResultStaysLines(source: string, patch: string, edits: seq<Edit>, tail: seq<string>)
    requires Says(SplitLines(patch), 2, edits, tail, 0) && SplitLines(source) == Source(edits, tail)
    ensures AreLines(Target(edits, tail)) <==>
              AddedAre(edits, IsNonempty) && EndedButLast(Target(edits, tail)) && NoBreakMade(Target(edits, tail))
  {
    hide AreLines, Says, SplitLines, Source, Target, AddedAre, MarkedAre;
    SplitAreLines(patch);
    SplitAreLines(source);
    PartsOfPatch(SplitLines(patch));
    AddedOfPatch(SplitLines(patch), 2, edits, tail, 0, IsPart);
    SourceParts(Source(edits, tail));
    TargetAll(edits, tail, IsPart);
    TargetAll(edits, tail, IsNonempty);
    LinesByParts(Target(edits, tail));
  }

  lemma SourceParts(lines: seq<string>)
    requires AreLines(lines)
    ensures forall t :: t in lines ==> IsNonempty(t) && IsPart(t)
  {
    hide LineLength;
  }

  // ---------- texts that end in a line end ----------

  // Either empty or ended.
  predicate IsEndedText(s: string) { s == "" || IsEnded(s) }

  lemma {:induction false} LastOfConcat(lines: seq<string>)
    requires lines != [] && forall t :: t in lines ==> t != ""
    ensures lines[|lines| - 1] in lines && Concat(lines) != "" && Concat(lines)[|Concat(lines)| - 1] == lines[|lines| - 1][|lines[|lines| - 1]| - 1]
  {
    assert lines[0] in lines && lines[|lines| - 1] in lines;
    var first, others := lines[0], lines[1..];
    assert Concat(lines) == first + Concat(others);
    if others == [] {
      assert Concat(others) == "" && first + "" == first;
    } else {
      assert forall t :: t in others ==> t in lines;
      LastOfConcat(others);
      hide Concat;
      assert others[|others| - 1] == lines[|lines| - 1];
    }
  }

  lemma EndedLines(s: string)
    requires IsEndedText(s)
    ensures forall t :: t in SplitLines(s) ==> IsWhole(t)
  {
    hide LineLength, SplitLines;
    var lines := SplitLines(s);
    SplitAreLines(s);
    ConcatSplit(s);
    SourceParts(lines);
    if lines != [] {
      LastOfConcat(lines);
      assert IsEnded(s);
      forall i | 0 <= i < |lines| ensures IsWhole(lines[i]) {
        if i < |lines| - 1 {
          EndedBefore(lines, i);
        }
      }
    }
  }

  lemma {:induction false} CharsOfLines(lines: seq<string>)
    requires HasNoReturn(Concat(lines))
    ensures forall t :: t in lines ==> HasNoReturn(t)
  {
    if lines != [] {
      assert Concat(lines) == lines[0] + Concat(lines[1..]);
      assert lines == [lines[0]] + lines[1..];
      CharsOfLines(lines[1..]);
    }
  }

  predicate IsPlainLine(t: string) { IsWhole(t) && HasNoReturn(t) }

  lemma PlainLines(s: string)
    requires IsEndedText(s) && HasNoReturn(s)
    ensures forall t :: t in SplitLines(s) ==> IsPlainLine(t)
  {
    hide IsWhole, HasNoReturn, SplitLines, Concat;
    EndedLines(s);
    ConcatSplit(s);
    CharsOfLines(SplitLines(s));
  }

  lemma PlainPatch(lines: seq<string>)
    requires forall t :: t in lines ==> IsPlainLine(t)
    ensures MarkedAre(lines, IsPlainLine)
  {
    hide LineLength, IsMarker, IsEnded;
    forall i | 0 <= i < |lines| && lines[i] != "" && IsMarker(lines[i][0]) ensures IsPlainLine(lines[i][1..]) {
      assert lines[i] in lines;
      BehindMarker(lines[i]);
    }
  }

  lemma PlainLinesStay(lines: seq<string>)
    requires forall t :: t in lines ==> IsPlainLine(t)
    ensures AreLines(lines)
  {
    hide LineLength;
    forall i | 0 <= i < |lines| ensures IsPlainLine(lines[i]) {
    }
    forall i, j | 0 <= i && j == i + 1 && j < |lines| ensures Adjoins(lines[i], lines[j]) {
      assert IsPlainLine(lines[i]) && IsPlainLine(lines[j]);
    }
  }

  /** Between texts that end in a line end and have no "\r", every accepted patch can be undone. */
  lemma EndedTextsAreUndone(source: string, patch: string) returns (undo: string)
    requires PatchText(source, patch).Success? && IsEndedText(source) && IsEndedText(patch) && HasNoReturn(source) && HasNoReturn(patch)
    ensures PatchText(PatchText(source, patch).value, undo) == Success(source)
  {
    hide PatchText, AreLines, Says, SplitLines, Source, Target, AddedAre, MarkedAre, IsEndedText, HasNoReturn, PrintPatch, Reverse, Concat, IsPlainLine;
    var edits, tail;
    edits, tail, undo := UndoRestoresText(source, patch);
    PlainLines(source);
    PlainLines(patch);
    PlainPatch(SplitLines(patch));
    AddedOfPatch(SplitLines(patch), 2, edits, tail, 0, IsPlainLine);
    TargetAll(edits, tail, IsPlainLine);
    PlainLinesStay(Target(edits, tail));
  }

  // ---------- an input that is not undone ----------

  // A line added behind the line "foo", which is not ended; and the two patches as texts.
  const UNENDED := [Edit(["foo"], [Line('+', "bar\n")])]
  const ADDS_BAR := "@@ -2,0 +2,1 @@\n"
  const DROPS_BAR := "@@ -2,1 +2,0 @@\n"
  const PATCH := FILE_HEADER[0] + FILE_HEADER[1] + ADDS_BAR + "+bar\n"
  const UNDO := FILE_HEADER[0] + FILE_HEADER[1] + DROPS_BAR + "-bar\n"

  /** A source whose last line is not ended: its patched text is not restored by the reversed patch. */
  lemma UnendedLineIsNotUndone()
    ensures PatchText("foo", PATCH) == Success("foobar\n")
    ensures PatchText("foobar\n", UNDO) != Success("foo")
  {
    var foo, foobar := "foo", "foobar\n";
    UnendedEdit();
    UnendedTexts();
    UnendedPatches();
    hide SplitLines, Concat, Source, Target, PrintPatch, Reverse, AreLines, UNENDED, MarkedAll, Patched, PATCH, UNDO;
    PrintedApplies(UNENDED, []);
    if PatchText(foobar, UNDO) == Success(foo) {
      ResultLinesFound(foo, UNENDED, [], SplitLines(foobar));
      SplitIffLines(Target(UNENDED, []));
      assert false;
    }
  }

  lemma UnendedEdit()
    ensures Source(UNENDED, []) == ["foo"] && Target(UNENDED, []) == ["foo", "bar\n"] && MarkedAll(UNENDED)
  {
    assert UNENDED[1..] == [];
    SidesCons(Line('+', "bar\n"), []);
    EmptySides();
    assert [Line('+', "bar\n")] + [] == UNENDED[0].body;
  }

  lemma UnendedTexts()
    ensures SplitLines("foo") == ["foo"] && Concat(["foo", "bar\n"]) == "foobar\n" && !AreLines(["foo", "bar\n"])
  {
    assert LineLength("foo") == 3 by {
      assert "foo"[1..] == "oo" && "oo"[1..] == "o";
    }
    assert "foo"[..3] == "foo" && "foo"[3..] == "";
    var lines := ["foo", "bar\n"];
    assert lines[1..] == ["bar\n"] && ["bar\n"][1..] == [];
    assert Concat(["bar\n"]) == "bar\n" + "";
    hide LineLength;
    assert lines[1][0] == 'b' && !StaysApart(lines[0], 'b') && !Adjoins(lines[0], lines[1]);
  }

  // The texts are split into the printed patches.
  lemma UnendedPatches()
    ensures SplitLines(PATCH) == PrintPatch(UNENDED) && SplitLines(UNDO) == PrintPatch(Reverse(UNENDED))
  {
    hide PrintPatch, Reverse, SplitLines, UNENDED, ADDS_BAR, DROPS_BAR, FILE_HEADER, IsLine, IsEnded, IsBreak;
    PrintedAddition();
    PrintedRemoval();
    HunkHeaderLines();
    HunkLines();
    TextOfPatch(ADDS_BAR, "+bar\n");
    TextOfPatch(DROPS_BAR, "-bar\n");
  }

  predicate IsPatchLine(line: string) { IsLine(line) && IsEnded(line) && !IsBreak(line[0]) }

  lemma HunkHeaderLines()
    ensures IsPatchLine(ADDS_BAR) && IsPatchLine(DROPS_BAR)
  {
    hide IsPatchLine;
    ShortLine(ADDS_BAR, "@@ -2,0 +2,1 @@");
    ShortLine(DROPS_BAR, "@@ -2,1 +2,0 @@");
  }

  lemma HunkLines()
    ensures IsPatchLine("+bar\n") && IsPatchLine("-bar\n")
  {
    hide IsPatchLine;
    ShortLine("+bar\n", "+bar");
    ShortLine("-bar\n", "-bar");
  }

  lemma ShortLine(line: string, content: string)
    requires line == content + "\n" && Unbroken(content) && content != ""
    ensures IsPatchLine(line)
  {
    EndedLine(content);
    assert line[0] == content[0];
  }

  lemma TextOfPatch(header: string, line: string)
    requires IsPatchLine(header) && IsPatchLine(line)
    ensures SplitLines(FILE_HEADER[0] + FILE_HEADER[1] + header + line) == FILE_HEADER + [header, line]
  {
    hide LineLength, IsEnded, SplitLines;
    FileHeaderLines();
    var hunks := [header, line];
    assert PatchLines(hunks);
    HeaderThenHunks(FILE_HEADER, hunks);
    SplitIffLines(FILE_HEADER + hunks);
    FourTexts(FILE_HEADER[0], FILE_HEADER[1], header, line);
    assert FILE_HEADER + hunks == [FILE_HEADER[0], FILE_HEADER[1], header, line];
  }

  lemma FourTexts(a: string, b: string, c: string, d: string)
    ensures Concat([a, b, c, d]) == a + b + c + d
  {
    ConcatAppend([a], [b, c, d]);
    ConcatAppend([b], [c, d]);
    ConcatAppend([c], [d]);
    assert [a, b, c, d] == [a] + ([b] + ([c] + [d])) && [b, c, d] == [b] + [c, d] && [c, d] == [c] + [d];
    assert Concat([a]) == a + "" && Concat([b]) == b + "" && Concat([c]) == c + "" && Concat([d]) == d + "";
  }

  lemma PrintedAddition()
    ensures PrintPatch(UNENDED) == FILE_HEADER + [ADDS_BAR, "+bar\n"]
  {
    var l := Line('+', "bar\n");
    PrintedHeaders();
    SidesCons(l, []);
    assert [l] + [] == [l] && UNENDED[1..] == [];
    OneLinePrinted(["foo"], l);
    assert Text(l) == "+bar\n";
  }

  lemma PrintedRemoval()
    ensures PrintPatch(Reverse(UNENDED)) == FILE_HEADER + [DROPS_BAR, "-bar\n"]
  {
    var l := Line('-', "bar\n");
    ReverseAddition(["foo"], "bar\n");
    OneLinePrinted(["foo"], l);
    RemovalHeader();
    hide PrintPatch, Reverse, PrintHeader, HeaderFor, FILE_HEADER, DROPS_BAR;
    assert Text(l) == "-bar\n";
  }

  lemma RemovalHeader()
    ensures PrintHeader(HeaderFor(Edit(["foo"], [Line('-', "bar\n")]), 0, 0)) == DROPS_BAR
  {
    var l := Line('-', "bar\n");
    SidesCons(l, []);
    assert [l] + [] == [l];
    PrintedHeaders();
    hide PrintHeader, DROPS_BAR, OldSide, NewSide;
  }

  lemma ReverseAddition(gap: seq<string>, content: string)
    ensures Reverse([Edit(gap, [Line('+', content)])]) == [Edit(gap, [Line('-', content)])]
  {
    var edits := [Edit(gap, [Line('+', content)])];
    assert edits[1..] == [] && edits[0].body[1..] == [];
    assert ReverseBody(edits[0].body) == [Line('-', content)] + [];
    assert Reverse([]) == [] && Reverse(edits) == [Edit(edits[0].gap, ReverseBody(edits[0].body))] + Reverse([]);
    assert [Line('-', content)] + [] == [Line('-', content)];
  }

  lemma OneLinePrinted(gap: seq<string>, l: Line)
    ensures PrintPatch([Edit(gap, [l])]) == FILE_HEADER + [PrintHeader(HeaderFor(Edit(gap, [l]), 0, 0)), Text(l)]
  {
    hide PrintHeader, HeaderFor, FILE_HEADER, Text;
    var e := Edit(gap, [l]);
    assert [e][1..] == [];
    assert Texts([l]) == [Text(l)];
    assert PrintHunks([e], 0, 0) == [PrintHeader(HeaderFor(e, 0, 0))] + Texts([l]) + [];
  }

  lemma PrintedHeaders()
    ensures PrintHeader(Header(2, 0, 2, 1)) == ADDS_BAR && PrintHeader(Header(2, 1, 2, 0)) == DROPS_BAR
  {
    SmallDigits();
    hide Digits;
  }

  lemma SmallDigits()
    ensures Digits(0) == "0" && Digits(1) == "1" && Digits(2) == "2"
  {
    assert [DigitChar(0)] == "0" && [DigitChar(1)] == "1" && [DigitChar(2)] == "2";
  }
}
