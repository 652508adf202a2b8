/** Preparing a corpus import: normalized sentences, the first of each kind, numbered, and a digest of them. */
module Corpora {
  import opened Digest
  import opened Sorting
  import opened Wrappers
  import opened Json
  import opened CanonicalJson
  import opened CanonicalEquality
  import opened CanonicalText
  import opened Strings
  import opened TextReplace

  // ---------- one sentence ----------

  predicate IsWord(w: string) { w != "" && forall i :: 0 <= i < |w| ==> !IsSpace(w[i]) }

  // The maximal runs without whitespace, `word` being the one under way.
  function SplitFrom(s: string, word: string): (r: seq<string>)
    requires forall i :: 0 <= i < |word| ==> !IsSpace(word[i])
    ensures forall i :: 0 <= i < |r| ==> IsWord(r[i])
    decreases |s|
  {
    if s == "" then if word == "" then [] else [word]
    else if IsSpace(s[0]) then (if word == "" then [] else [word]) + SplitFrom(s[1..], "")
    else SplitFrom(s[1..], word + [s[0]])
  }

  function Split(s: string): (r: seq<string>)
    ensures forall i :: 0 <= i < |r| ==> IsWord(r[i])
  {
    SplitFrom(s, "")
  }

  function SplitJoined(s: string): string { Join(Split(s), " ") }

  lemma {:induction false} SplitWord(w: string, s: string, word: string)
    requires (forall i :: 0 <= i < |w| ==> !IsSpace(w[i])) && forall i :: 0 <= i < |word| ==> !IsSpace(word[i])
    ensures SplitFrom(w + s, word) == SplitFrom(s, word + w)
    decreases |w|
  {
    hide IsSpace;
    if w == "" {
      assert w + s == s && word + w == word;
    } else {
      SplitWord(w[1..], s, word + [w[0]]);
      assert (w + s)[1..] == w[1..] + s;
      assert word + w == word + [w[0]] + w[1..];
    }
  }

  /** Joining words and splitting gives the words back. */
  lemma {:induction false} SplitOfJoin(words: seq<string>)
    requires forall i :: 0 <= i < |words| ==> IsWord(words[i])
    ensures Split(Join(words, " ")) == words
  {
    if words != [] {
      var w, rest := words[0], words[1..];
      assert IsWord(w);
      SplitOfJoin(rest);
      assert IsSpace(' ');
      hide IsSpace, Join;
      var tail := if |words| == 1 then "" else " " + Join(rest, " ");
      assert Join(words, " ") == w + tail by { JoinStep(words); }
      SplitWord(w, tail, "");
      assert "" + w == w;
      if |words| > 1 {
        assert tail[1..] == Join(rest, " ");
      }
      assert words == [w] + rest;
    }
  }

  lemma JoinStep(words: seq<string>)
    requires words != []
    ensures Join(words, " ") == words[0] + if |words| == 1 then "" else " " + Join(words[1..], " ")
  {
  }

  // ---------- which words a text has ----------

  // The whitespace characters of Unicode, and the information separators.
  predicate IsBlankChar(c: char) {
    c as int in {0x09, 0x0a, 0x0b, 0x0c, 0x0d, 0x1c, 0x1d, 0x1e, 0x1f, 0x20, 0x85, 0xa0, 0x1680, 0x2000, 0x2001, 0x2002, 0x2003, 0x2004,
                 0x2005, 0x2006, 0x2007, 0x2008, 0x2009, 0x200a, 0x2028, 0x2029, 0x202f, 0x205f, 0x3000}
  }

  predicate IsBlankText(s: string) { forall i :: 0 <= i < |s| ==> IsBlankChar(s[i]) }

  predicate HasNoBlank(s: string) { forall i :: 0 <= i < |s| ==> !IsBlankChar(s[i]) }

  lemma SpacesAreBlank()
    ensures forall c :: IsSpace(c) <==> IsBlankChar(c)
  {
  }

  // gaps[0] words[0] gaps[1] words[1] ... gaps[n]
  function Spread(words: seq<string>, gaps: seq<string>): string
    requires |gaps| == |words| + 1
  {
    if words == [] then gaps[0] else gaps[0] + words[0] + Spread(words[1..], gaps[1..])
  }

  // Words without blanks, between blanks; only the first and the last gap may be empty.
  predicate IsSpread(s: string, words: seq<string>, gaps: seq<string>) {
    && |gaps| == |words| + 1 && s == Spread(words, gaps)
    && (forall i :: 0 <= i < |words| ==> words[i] != "" && HasNoBlank(words[i]))
    && (forall i :: 0 <= i < |gaps| ==> IsBlankText(gaps[i]))
    && forall i :: 0 < i < |words| ==> gaps[i] != ""
  }

  lemma {:induction false} SkipGap(gap: string, s: string)
    requires IsBlankText(gap)
    ensures SplitFrom(gap + s, "") == SplitFrom(s, "")
    decreases |gap|
  {
    SpacesAreBlank();
    hide IsSpace, IsBlankChar;
    if gap == "" {
      assert gap + s == s;
    } else {
      assert (gap + s)[1..] == gap[1..] + s;
      SkipGap(gap[1..], s);
    }
  }

  lemma EndWord(word: string, rest: string)
    requires word != "" && HasNoBlank(word) && (rest == "" || IsBlankChar(rest[0]))
    ensures (forall i :: 0 <= i < |word| ==> !IsSpace(word[i])) && SplitFrom(rest, word) == [word] + SplitFrom(rest, "")
  {
    SpacesAreBlank();
    hide IsSpace, IsBlankChar;
  }

  lemma {:induction false} SpreadSplits(words: seq<string>, gaps: seq<string>)
    requires |gaps| == |words| + 1 && IsSpread(Spread(words, gaps), words, gaps)
    ensures Split(Spread(words, gaps)) == words
    decreases |words|
  {
    hide IsSpace, IsBlankChar;
    if words == [] {
      SkipGap(gaps[0], "");
      assert gaps[0] + "" == gaps[0];
    } else {
      var w, rest := words[0], Spread(words[1..], gaps[1..]);
      SpreadTail(words, gaps);
      SpreadSplits(words[1..], gaps[1..]);
      assert gaps[0] + w + rest == gaps[0] + (w + rest);
      SkipGap(gaps[0], w + rest);
      EndWord(w, rest);
      SplitWord(w, rest, "");
      assert "" + w == w;
    }
  }

  lemma SpreadTail(words: seq<string>, gaps: seq<string>)
    requires words != [] && |gaps| == |words| + 1 && IsSpread(Spread(words, gaps), words, gaps)
    ensures IsSpread(Spread(words[1..], gaps[1..]), words[1..], gaps[1..])
    ensures var rest := Spread(words[1..], gaps[1..]); rest == "" || IsBlankChar(rest[0])
  {
    hide IsBlankChar;
    if |words| > 1 {
      assert gaps[1] != "" && IsBlankText(gaps[1]);
    }
  }

  // One more blank in front.
  lemma BlankAhead(c: char, s: string, words: seq<string>, gaps: seq<string>)
    requires IsSpread(s, words, gaps) && IsBlankChar(c)
    ensures IsSpread([c] + s, words, [[c] + gaps[0]] + gaps[1..])
  {
    hide IsBlankChar;
    var wider := [[c] + gaps[0]] + gaps[1..];
    assert wider[1..] == gaps[1..];
    assert Spread(words, wider) == [c] + Spread(words, gaps);
  }

  // A word in front of blanks.
  lemma WordAhead(word: string, s: string, words: seq<string>, gaps: seq<string>)
    requires word != "" && HasNoBlank(word) && IsSpread(s, words, gaps) && (words != [] ==> gaps[0] != "")
    ensures IsSpread(word + s, [word] + words, [""] + gaps)
  {
    hide IsBlankChar;
    assert ([word] + words)[1..] == words && ([""] + gaps)[1..] == gaps;
    assert "" + word == word;
  }

  lemma NothingSpread()
    ensures IsSpread("", [], [""])
  {
  }

  lemma {:induction false} SplitSpreads(s: string, word: string) returns (gaps: seq<string>)
    requires HasNoBlank(word) && forall i :: 0 <= i < |word| ==> !IsSpace(word[i])
    ensures IsSpread(word + s, SplitFrom(s, word), gaps)
    decreases |s|
  {
    SpacesAreBlank();
    NothingSpread();
    hide IsSpace, IsBlankChar, IsSpread, Spread;
    if s == "" {
      gaps := [""];
      if word != "" {
        WordAhead(word, "", [], gaps);
        assert [word] + [] == [word];
        gaps := [""] + gaps;
      }
      assert word + s == word;
    } else if IsBlankChar(s[0]) {
      var rest := SplitSpreads(s[1..], "");
      var words := SplitFrom(s[1..], "");
      assert "" + s[1..] == s[1..] && s == [s[0]] + s[1..];
      gaps := GapAhead(s, word, words, rest);
    } else {
      gaps := SplitSpreads(s[1..], word + [s[0]]);
      assert word + s == (word + [s[0]]) + s[1..];
    }
  }

  lemma GapAhead(s: string, word: string, words: seq<string>, rest: seq<string>) returns (gaps: seq<string>)
    requires s != "" && IsBlankChar(s[0]) && HasNoBlank(word) && IsSpread(s[1..], words, rest)
    ensures IsSpread(word + s, (if word == "" then [] else [word]) + words, gaps)
  {
    BlankAhead(s[0], s[1..], words, rest);
    assert s == [s[0]] + s[1..];
    gaps := [[s[0]] + rest[0]] + rest[1..];
    hide IsBlankChar, IsSpread;
    if word == "" {
      assert word + s == s && [] + words == words;
    } else {
      WordAhead(word, s, words, gaps);
      gaps := [""] + gaps;
    }
  }

  /** The words of a text are its longest stretches without blanks: splitting gives them exactly when blanks stand between them. */
  lemma SplitIff(s: string, words: seq<string>)
    ensures Split(s) == words <==> exists gaps :: IsSpread(s, words, gaps)
  {
    hide IsBlankChar, IsSpace, SplitFrom, Spread;
    var gaps := SplitSpreads(s, "");
    assert "" + s == s;
    if gaps :| IsSpread(s, words, gaps) {
      SpreadSplits(words, gaps);
    }
  }

  // Line breaks, then the Unicode normal form, then single spaces between words.
  function NormalizeSentence(nfc: string -> string, text: string): string {
    SplitJoined(nfc(ReplaceAll(ReplaceAll(text, "\r\n", "\n"), "\r", "\n")))
  }

  /** A normalized sentence is the words of the normal form with single spaces between them. */
  lemma NormalizedText(nfc: string -> string, text: string, words: seq<string>, gaps: seq<string>)
    requires IsSpread(nfc(ReplaceAll(ReplaceAll(text, "\r\n", "\n"), "\r", "\n")), words, gaps)
    ensures NormalizeSentence(nfc, text) == Join(words, " ")
  {
    hide IsSpread, Split, ReplaceAll, Join;
    SplitIff(nfc(ReplaceAll(ReplaceAll(text, "\r\n", "\n"), "\r", "\n")), words);
  }

  // The normal form leaves text of single-spaced words that came from it alone.
  ghost predicate KeepsWords(nfc: string -> string) { forall s :: nfc(SplitJoined(nfc(s))) == SplitJoined(nfc(s)) }

  lemma {:induction false} NothingToReplace(s: string, pat: string, repl: string)
    requires pat != "" && pat[0] == '\r' && forall i :: 0 <= i < |s| ==> s[i] != '\r'
    ensures ReplaceAll(s, pat, repl) == s
  {
    forall p: nat ensures !OccursAt(s, pat, p) {
      if p + |pat| <= |s| {
        assert s[p..p + |pat|][0] == s[p];
      }
    }
  }

  lemma {:induction false} JoinedHasNoReturns(words: seq<string>)
    requires forall i :: 0 <= i < |words| ==> IsWord(words[i])
    ensures forall i :: 0 <= i < |Join(words, " ")| ==> Join(words, " ")[i] != '\r'
  {
    assert IsSpace('\r');
    hide IsSpace;
    if words != [] {
      assert IsWord(words[0]);
      JoinedHasNoReturns(words[1..]);
      JoinStep(words);
    }
  }

  /** A normalized sentence is normalized already. */
  lemma NormalizingIsIdempotent(nfc: string -> string, text: string)
    requires KeepsWords(nfc)
    ensures NormalizeSentence(nfc, NormalizeSentence(nfc, text)) == NormalizeSentence(nfc, text)
  {
    hide IsSpace, ReplaceAll, Split, Join;
    var raw := ReplaceAll(ReplaceAll(text, "\r\n", "\n"), "\r", "\n");
    var s := NormalizeSentence(nfc, text);
    JoinedHasNoReturns(Split(nfc(raw)));
    NothingToReplace(s, "\r\n", "\n");
    NothingToReplace(s, "\r", "\n");
    assert nfc(s) == s;
    SplitOfJoin(Split(nfc(raw)));
  }

  // ---------- the corpus ----------

  datatype Prepared = Prepared(ordinal: nat, original: string, normalized: string)

  datatype Corpus = Corpus(language: string, sentences: seq<Prepared>, digest: string)

  datatype ImportError = TooManySentences | SentenceTooLong | NoSentence

  function Normalized(nfc: string -> string, sentences: seq<string>): (r: seq<string>)
    ensures |r| == |sentences| && forall i :: 0 <= i < |r| ==> r[i] == NormalizeSentence(nfc, sentences[i])
  {
    seq(|sentences|, i requires 0 <= i < |sentences| => NormalizeSentence(nfc, sentences[i]))
  }

  // A sentence is kept when it is neither blank nor a repetition.
  predicate IsKept(texts: seq<string>, i: nat)
    requires i < |texts|
  {
    texts[i] != "" && texts[i] !in texts[..i]
  }

  // The kept texts, in order.
  function Kept(texts: seq<string>): seq<string> {
    if texts == [] then []
    else
      var n := |texts| - 1;
      Kept(texts[..n]) + if IsKept(texts, n) then [texts[n]] else []
  }

  function Texts(prepared: seq<Prepared>): (r: seq<string>)
    ensures |r| == |prepared| && forall i :: 0 <= i < |r| ==> r[i] == prepared[i].normalized
  {
    seq(|prepared|, i requires 0 <= i < |prepared| => prepared[i].normalized)
  }

  // Prepared sentence k is the k-th kept one, with the text the user gave for its first occurrence.
  predicate IsPrepared(sentences: seq<string>, texts: seq<string>, prepared: seq<Prepared>)
    requires |sentences| == |texts|
  {
    forall k :: 0 <= k < |prepared| ==> prepared[k].ordinal == k && HasOrigin(sentences, texts, prepared[k])
  }

  predicate HasOrigin(sentences: seq<string>, texts: seq<string>, p: Prepared)
    requires |sentences| == |texts|
  {
    exists i :: 0 <= i < |texts| && IsKept(texts, i) && p.normalized == texts[i] && p.original == sentences[i]
  }

  function Canonical(language: string, texts: seq<string>): Json {
    Obj([Field("language", Str(language)), Field("sentences", Arr(JsonStrings(texts)))])
  }

  function JsonStrings(texts: seq<string>): (r: seq<Json>)
    ensures |r| == |texts| && forall i :: 0 <= i < |r| ==> r[i] == Str(texts[i])
  {
    seq(|texts|, i requires 0 <= i < |texts| => Str(texts[i]))
  }

  predicate TooLong(texts: seq<string>, maxCharacters: nat) { exists i :: 0 <= i < |texts| && |texts[i]| > maxCharacters }

  /**
   * An import fails exactly when it has too many sentences, one of them is too long, or all are
   * blank; otherwise it keeps the first occurrence of each normalized sentence, in order, numbered from 0.
   */
  method PrepareCorpus(language: string, sentences: seq<string>, maxSentences: nat, maxCharacters: nat,
                       nfc: string -> string, hash: string -> string) returns (r: Result<Corpus, ImportError>)
    ensures var texts := Normalized(nfc, sentences);
            && (|sentences| > maxSentences ==> r == Failure(TooManySentences))
            && (|sentences| <= maxSentences && TooLong(texts, maxCharacters) ==> r == Failure(SentenceTooLong))
            && (|sentences| <= maxSentences && !TooLong(texts, maxCharacters) && Kept(texts) == [] ==> r == Failure(NoSentence))
            && (|sentences| <= maxSentences && !TooLong(texts, maxCharacters) && Kept(texts) != [] ==> r.Success?)
            && (r.Success? ==>
                  && r.value.language == language && Texts(r.value.sentences) == Kept(texts)
                  && IsPrepared(sentences, texts, r.value.sentences)
                  && r.value.digest == hash(Encode(Canonical(language, Kept(texts)))))
  {
    KeptNone();
    hide NormalizeSentence, Encode, Kept, Canonical;
    ghost var texts := Normalized(nfc, sentences);
    if |sentences| > maxSentences {
      return Failure(TooManySentences);
    }
    var prepared: seq<Prepared> := [];
    var seen: set<string> := {};
    for i := 0 to |sentences|
      invariant Texts(prepared) == Kept(texts[..i]) && IsPrepared(sentences, texts, prepared)
      invariant forall t :: t in seen <==> t != "" && t in texts[..i]
      invariant forall j :: 0 <= j < i ==> |texts[j]| <= maxCharacters
    {
      KeptStep(texts, i);
      var normalized := NormalizeSentence(nfc, sentences[i]);
      assert normalized == texts[i] && texts[..i + 1] == texts[..i] + [texts[i]];
      if normalized != "" && normalized !in seen {
        if |normalized| > maxCharacters {
          return Failure(SentenceTooLong);
        }
        seen := seen + {normalized};
        assert HasOrigin(sentences, texts, Prepared(|prepared|, sentences[i], normalized));
        prepared := prepared + [Prepared(|prepared|, sentences[i], normalized)];
      } else {
        assert normalized != "" ==> exists j :: 0 <= j < i && texts[j] == normalized;
      }
    }
    assert texts[..|sentences|] == texts;
    if prepared == [] {
      return Failure(NoSentence);
    }
    var kept := Texts(prepared);
    return Success(Corpus(language, prepared, hash(Encode(Canonical(language, kept)))));
  }

  lemma KeptNone()
    ensures Kept([]) == []
  {
  }

  lemma KeptStep(texts: seq<string>, i: nat)
    requires i < |texts|
    ensures Kept(texts[..i + 1]) == Kept(texts[..i]) + if IsKept(texts, i) then [texts[i]] else []
  {
    assert texts[..i + 1][..i] == texts[..i];
  }

  // ---------- which sentences are kept ----------

  /** The kept texts are exactly the non-blank ones, each once, at the places their first occurrences take. */
  lemma {:induction false} KeptAreFirstOccurrences(texts: seq<string>)
    ensures forall t :: t in Kept(texts) <==> t != "" && t in texts
    ensures forall j, k :: 0 <= j < k < |Kept(texts)| ==> Kept(texts)[j] != Kept(texts)[k]
    ensures forall i :: 0 <= i < |texts| && IsKept(texts, i) ==>
              |Kept(texts[..i])| < |Kept(texts)| && Kept(texts)[|Kept(texts[..i])|] == texts[i]
    decreases |texts|
  {
    if texts != [] {
      var n := |texts| - 1;
      var before := texts[..n];
      KeptAreFirstOccurrences(before);
      assert texts == before + [texts[n]];
      forall i | 0 <= i < |texts| && IsKept(texts, i)
        ensures |Kept(texts[..i])| < |Kept(texts)| && Kept(texts)[|Kept(texts[..i])|] == texts[i]
      {
        if i < n {
          assert before[..i] == texts[..i] && IsKept(before, i);
        }
      }
    }
  }

  lemma {:induction false} KeptOfAppend(a: seq<string>, b: seq<string>, x: string)
    requires x == "" || x in a
    ensures Kept(a + [x] + b) == Kept(a + b)
    decreases |b|
  {
    if b == [] {
      assert a + [x] + b == a + [x] && a + b == a && (a + [x])[..|a|] == a;
    } else {
      var n := |b| - 1;
      var b', y := b[..n], b[n];
      KeptOfAppend(a, b', x);
      assert a + [x] + b == (a + [x] + b') + [y] && a + b == (a + b') + [y];
      KeptLast(a + [x] + b', y);
      KeptLast(a + b', y);
      assert y != "" ==> (y in a + [x] + b' <==> y in a + b');
    }
  }

  lemma KeptLast(texts: seq<string>, y: string)
    ensures Kept(texts + [y]) == Kept(texts) + if y != "" && y !in texts then [y] else []
  {
    assert (texts + [y])[..|texts|] == texts;
  }

  /** A blank sentence, or a repetition of an earlier one, changes neither the kept texts nor the digest. */
  lemma NoiseDoesNotMatter(nfc: string -> string, hash: string -> string, language: string,
                           a: seq<string>, b: seq<string>, x: string)
    requires NormalizeSentence(nfc, x) == "" || NormalizeSentence(nfc, x) in Normalized(nfc, a)
    ensures Kept(Normalized(nfc, a + [x] + b)) == Kept(Normalized(nfc, a + b))
    ensures hash(Encode(Canonical(language, Kept(Normalized(nfc, a + [x] + b)))))
            == hash(Encode(Canonical(language, Kept(Normalized(nfc, a + b)))))
  {
    hide NormalizeSentence, Encode, Kept;
    var u, y, v := Normalized(nfc, a), NormalizeSentence(nfc, x), Normalized(nfc, b);
    assert Normalized(nfc, a + [x] + b) == u + [y] + v;
    assert Normalized(nfc, a + b) == u + v;
    KeptOfAppend(u, v, y);
  }

  lemma {:induction false} KeptOfKept(texts: seq<string>)
    ensures Kept(Kept(texts)) == Kept(texts)
    decreases |texts|
  {
    if texts != [] {
      var n := |texts| - 1;
      KeptOfKept(texts[..n]);
      KeptAreFirstOccurrences(texts[..n]);
      if IsKept(texts, n) {
        KeptLast(Kept(texts[..n]), texts[n]);
      } else {
        assert Kept(texts) == Kept(texts[..n]);
      }
    }
  }

  /** Preparing the prepared sentences again gives the same sentences and the same digest. */
  lemma PreparingIsIdempotent(nfc: string -> string, sentences: seq<string>)
    requires KeepsWords(nfc)
    ensures var kept := Kept(Normalized(nfc, sentences));
            Normalized(nfc, kept) == kept && Kept(Normalized(nfc, kept)) == kept
  {
    var texts := Normalized(nfc, sentences);
    var kept := Kept(texts);
    KeptOfKept(texts);
    KeptAreFirstOccurrences(texts);
    hide NormalizeSentence, Kept;
    forall k | 0 <= k < |kept| ensures NormalizeSentence(nfc, kept[k]) == kept[k] {
      assert kept[k] in kept;
      var i :| 0 <= i < |texts| && texts[i] == kept[k];
      NormalizingIsIdempotent(nfc, sentences[i]);
    }
  }

  // ---------- the digest ----------

  lemma CanonicalIsJson(language: string, texts: seq<string>, valueOf: string -> real)
    ensures WellFormed(Canonical(language, texts)) && Printed(Canonical(language, texts), valueOf)
  {
    assert forall i :: 0 <= i < |texts| ==> WellFormed(JsonStrings(texts)[i]) && Printed(JsonStrings(texts)[i], valueOf);
    var j := Arr(JsonStrings(texts));
    assert WellFormed(j) && Printed(j, valueOf);
    var fields := Canonical(language, texts).fields;
    assert DistinctNames(fields) && WellFormed(fields[0].value) && fields[1].value == j;
  }

  function QuotedTexts(texts: seq<string>): seq<string> { Map(Quote, texts) }

  lemma QuotedItems(texts: seq<string>)
    ensures Map(Encode, JsonStrings(texts)) == QuotedTexts(texts)
  {
    hide Encode, Quote;
    forall i | 0 <= i < |texts| ensures Encode(JsonStrings(texts)[i]) == Quote(texts[i]) {
      ValueText([], 0.0, "", texts[i]);
    }
  }

  /** The text that is hashed: the language and the kept texts, quoted and in order. */
  lemma HashedText(language: string, texts: seq<string>)
    ensures Encode(Canonical(language, texts))
            == "{" + Join([Labeled("language", Quote(language)), Labeled("sentences", "[" + Join(QuotedTexts(texts), ",") + "]")], ",") + "}"
  {
    LessAt("language", "sentences", 0);
    assert IsPlain("language") && IsPlain("sentences");
    hide Join, Encode, Labeled, Quote, IsPlain, Less;
    ValueText(JsonStrings(texts), 0.0, "", language);
    QuotedItems(texts);
    var fields := Canonical(language, texts).fields;
    hide QuotedTexts, JsonStrings;
    ObjectText(fields);
    assert Map(LabeledText, fields) == [LabeledText(fields[0]), LabeledText(fields[1])];
  }

  lemma SameCanonical(l1: string, t1: seq<string>, l2: string, t2: seq<string>)
    requires Same(Canonical(l1, t1), Canonical(l2, t2), Exact)
    ensures l1 == l2 && t1 == t2
  {
    var x, y := Canonical(l1, t1).fields, Canonical(l2, t2).fields;
    assert SameField(x[0], y, Exact) && SameField(x[1], y, Exact);
    assert y[1..][0] == y[1];
    assert Find(y, "language") == Some(Str(l2)) && Find(y, "sentences") == Some(Arr(JsonStrings(t2)));
    assert Same(Str(l1), Str(l2), Exact) && Same(Arr(JsonStrings(t1)), Arr(JsonStrings(t2)), Exact);
    assert AtomSame(Str(l1), Str(l2), Exact);
    forall i | 0 <= i < |t1| ensures t1[i] == t2[i] {
      assert Same(JsonStrings(t1)[i], JsonStrings(t2)[i], Exact);
    }
  }

  /** With a collision-free digest, two corpora share it exactly when language and kept texts agree. */
  lemma DigestDeterminesCorpus(hash: string -> string, l1: string, t1: seq<string>, l2: string, t2: seq<string>)
    requires CollisionFree(hash)
    ensures hash(Encode(Canonical(l1, t1))) == hash(Encode(Canonical(l2, t2))) <==> l1 == l2 && t1 == t2
  {
    hide Encode, Same, WellFormed, Printed, Canonical;
    var valueOf := (_: string) => 0.0;
    CanonicalIsJson(l1, t1, valueOf);
    CanonicalIsJson(l2, t2, valueOf);
    EncodingDeterminesValue(Canonical(l1, t1), Canonical(l2, t2), valueOf);
    if Encode(Canonical(l1, t1)) == Encode(Canonical(l2, t2)) {
      SameCanonical(l1, t1, l2, t2);
    }
  }
}
