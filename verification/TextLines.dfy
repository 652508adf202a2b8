/** str.splitlines(keepends=True), and which lists of lines survive being joined. */
module TextLines {
  import opened Strings

  // What ends a line; "\r\n" ends it once.
  predicate IsBreak(c: char) {
    || '\n' <= c <= '\r' || 0x1c as char <= c <= 0x1e as char || c == 0x85 as char || c == 0x2028 as char || c == 0x2029 as char
  }

  // The length of the first line, its end included.
  function LineLength(s: string): (k: nat)
    requires s != ""
    ensures 1 <= k <= |s|
  {
    if IsBreak(s[0]) then if s[0] == '\r' && |s| > 1 && s[1] == '\n' then 2 else 1
    else if |s| == 1 then 1
    else 1 + LineLength(s[1..])
  }

  function SplitLines(s: string): seq<string>
    decreases |s|
  {
    if s == "" then [] else [s[..LineLength(s)]] + SplitLines(s[LineLength(s)..])
  }

  /** Joining what was split gives the text back. */
  lemma {:induction false} ConcatSplit(s: string)
    ensures Concat(SplitLines(s)) == s
    decreases |s|
  {
    if s != "" {
      ConcatSplit(s[LineLength(s)..]);
    }
  }

  // One line: nothing behind its end.
  predicate IsLine(s: string) { s != "" && LineLength(s) == |s| }

  predicate IsEnded(s: string) { s != "" && IsBreak(s[|s| - 1]) }

  // A line that what follows does not change: it is ended, and no "\n" joins its "\r".
  predicate StaysApart(line: string, next: char) { IsEnded(line) && !(line[|line| - 1] == '\r' && next == '\n') }

  // The lines can stand one after the other.
  predicate Adjoins(line: string, next: string) { next != "" && StaysApart(line, next[0]) }

  // Every item is one line, and all but the last are ended.
  ghost predicate AreLines(lines: seq<string>) {
    && (forall i :: 0 <= i < |lines| ==> IsLine(lines[i]))
    && forall i, j :: 0 <= i && j == i + 1 && j < |lines| ==> Adjoins(lines[i], lines[j])
  }

  lemma AreLinesCons(lines: seq<string>)
    requires lines != []
    ensures AreLines(lines) <==> IsLine(lines[0]) && AreLines(lines[1..]) && Precedes(lines[0], lines[1..])
  {
    hide IsLine, Adjoins;
    var rest := lines[1..];
    if AreLines(lines) {
      AreLinesSuffix(lines, 1);
      assert rest != [] ==> rest[0] == lines[1];
    }
    if IsLine(lines[0]) && AreLines(rest) && Precedes(lines[0], rest) {
      forall i | 0 <= i < |lines| ensures IsLine(lines[i]) {
        if i > 0 {
          assert lines[i] == rest[i - 1];
        }
      }
      forall i, j | 0 <= i && j == i + 1 && j < |lines| ensures Adjoins(lines[i], lines[j]) {
        if i > 0 {
          assert lines[i] == rest[i - 1] && lines[j] == rest[j - 1];
        }
      }
    }
  }

  // The line can stand in front of the others.
  predicate Precedes(line: string, others: seq<string>) { others != [] ==> Adjoins(line, others[0]) }

  lemma AreLinesSuffix(lines: seq<string>, k: nat)
    requires AreLines(lines) && k <= |lines|
    ensures AreLines(lines[k..]) && AreLines(lines[..k])
  {
    hide IsLine, Adjoins;
    var suffix, prefix := lines[k..], lines[..k];
    forall i | 0 <= i < |suffix| ensures IsLine(suffix[i]) {
      assert suffix[i] == lines[k + i];
    }
    forall i, j | 0 <= i && j == i + 1 && j < |suffix| ensures Adjoins(suffix[i], suffix[j]) {
      assert suffix[i] == lines[k + i] && suffix[j] == lines[k + j];
    }
    forall i, j | 0 <= i && j == i + 1 && j < |prefix| ensures Adjoins(prefix[i], prefix[j]) {
      assert prefix[i] == lines[i] && prefix[j] == lines[j];
    }
  }

  // The first line of a text is a line, and stays apart from what follows it.
  lemma {:induction false} FirstLine(s: string)
    requires s != ""
    ensures IsLine(s[..LineLength(s)])
    ensures LineLength(s) < |s| ==> StaysApart(s[..LineLength(s)], s[LineLength(s)])
  {
    if !IsBreak(s[0]) && |s| > 1 {
      FirstLine(s[1..]);
      var k := LineLength(s[1..]);
      assert s[..k + 1][1..] == s[1..][..k];
    }
  }

  // A line followed by what leaves it apart is the first line of the text.
  lemma {:induction false} LineAhead(line: string, rest: string)
    requires IsLine(line) && (rest != "" ==> StaysApart(line, rest[0]))
    ensures LineLength(line + rest) == |line|
  {
    var s := line + rest;
    if rest == "" {
      assert s == line;
    } else if !IsBreak(line[0]) {
      assert |line| > 1;
      assert s[1..] == line[1..] + rest;
      LineAhead(line[1..], rest);
    }
  }

  lemma {:induction false} SplitAreLines(s: string)
    ensures AreLines(SplitLines(s))
    decreases |s|
  {
    if s != "" {
      var k := LineLength(s);
      var lines := SplitLines(s);
      FirstLine(s);
      SplitAreLines(s[k..]);
      assert lines[1..] == SplitLines(s[k..]);
      AreLinesCons(lines);
    }
  }

  // Whether a text may follow these lines without changing them.
  predicate Open(lines: seq<string>, next: char) { lines == [] || StaysApart(lines[|lines| - 1], next) }

  /** Lines in front of a text are split off as they are. */
  lemma {:induction false} SplitAhead(lines: seq<string>, rest: string)
    requires AreLines(lines) && (rest != "" ==> Open(lines, rest[0]))
    ensures SplitLines(Concat(lines) + rest) == lines + SplitLines(rest)
    decreases |lines|
  {
    hide IsLine, LineLength, StaysApart, AreLines, SplitLines;
    if lines == [] {
      assert Concat(lines) + rest == rest;
      assert lines + SplitLines(rest) == SplitLines(rest);
    } else {
      AreLinesCons(lines);
      var line, others := lines[0], lines[1..];
      SplitAhead(others, rest);
      NextCharacter(others, rest, line);
      SplitFirst(line, Concat(others) + rest);
      assert Concat(lines) + rest == line + (Concat(others) + rest);
      assert lines + SplitLines(rest) == [line] + (others + SplitLines(rest));
    }
  }

  // What follows a line among lines in front of a text leaves it apart.
  lemma NextCharacter(others: seq<string>, rest: string, line: string)
    requires Precedes(line, others) && (others == [] && rest != "" ==> StaysApart(line, rest[0]))
    ensures Concat(others) + rest != "" ==> StaysApart(line, (Concat(others) + rest)[0])
  {
    hide StaysApart;
    if others != [] {
      assert Concat(others)[0] == others[0][0];
    } else {
      assert Concat(others) + rest == rest;
    }
  }

  lemma SplitFirst(line: string, rest: string)
    requires IsLine(line) && (rest != "" ==> StaysApart(line, rest[0]))
    ensures SplitLines(line + rest) == [line] + SplitLines(rest)
  {
    LineAhead(line, rest);
    hide LineLength, StaysApart;
    assert (line + rest)[..|line|] == line && (line + rest)[|line|..] == rest;
  }

  lemma LineNotEmpty(line: string)
    requires IsLine(line)
    ensures line != ""
  {
  }

  /** A list of lines survives being joined and split exactly when every item is one line and all but the last are ended. */
  lemma SplitIffLines(lines: seq<string>)
    ensures SplitLines(Concat(lines)) == lines <==> AreLines(lines)
  {
    SplitAreLines(Concat(lines));
    if AreLines(lines) {
      SplitAhead(lines, "");
      assert Concat(lines) + "" == Concat(lines);
      assert lines + [] == lines;
    }
  }

  lemma {:induction false} ConcatAppend(a: seq<string>, b: seq<string>)
    ensures Concat(a + b) == Concat(a) + Concat(b)
  {
    if a == [] {
      assert a + b == b;
    } else {
      assert (a + b)[1..] == a[1..] + b;
      ConcatAppend(a[1..], b);
    }
  }

  // The front of a list of lines is open to the text of the rest.
  lemma FrontIsOpen(front: seq<string>, rest: seq<string>)
    requires AreLines(front + rest)
    ensures AreLines(front) && AreLines(rest)
    ensures Concat(rest) != "" ==> Open(front, Concat(rest)[0])
  {
    hide IsLine, StaysApart;
    var lines := front + rest;
    AreLinesSuffix(lines, |front|);
    assert lines[..|front|] == front && lines[|front|..] == rest;
    if rest != [] {
      LineNotEmpty(rest[0]);
      assert Concat(rest)[0] == rest[0][0];
      if front != [] {
        assert lines[|front| - 1] == front[|front| - 1] && lines[|front|] == rest[0];
      }
    }
  }

  /** The characters that end a line, and no others. */
  lemma LineBreaks(c: char)
    ensures SplitLines(['a', c, 'b']) == [['a', c], ['b']]
            <==> c as int in {0x0a, 0x0b, 0x0c, 0x0d, 0x1c, 0x1d, 0x1e, 0x85, 0x2028, 0x2029}
    ensures SplitLines(['a', '\r', '\n', 'b']) == [['a', '\r', '\n'], ['b']]
  {
    var s := ['a', c, 'b'];
    assert s[1..] == [c, 'b'] && [c, 'b'][1..] == ['b'];
    assert LineLength(['b']) == 1 && SplitLines(['b']) == [['b']] by {
      assert ['b'][..1] == ['b'] && ['b'][1..] == [];
    }
    if IsBreak(c) {
      assert LineLength(s) == 2 && s[..2] == ['a', c] && s[2..] == ['b'];
    } else {
      assert LineLength(s) == 3 && s[..3] == s && s[3..] == [];
    }
    ReturnAndNewline();
  }

  lemma ReturnAndNewline()
    ensures SplitLines(['a', '\r', '\n', 'b']) == [['a', '\r', '\n'], ['b']]
  {
    var s := ['a', '\r', '\n', 'b'];
    assert s[1..] == ['\r', '\n', 'b'];
    assert LineLength(s) == 3 && s[..3] == ['a', '\r', '\n'] && s[3..] == ['b'];
    assert ['b'][..1] == ['b'] && ['b'][1..] == [];
    assert SplitLines(['b']) == [['b']];
  }
}
