/** Which object keys name credentials, however their words are joined. */
module SensitiveKeys {
  import opened Strings

  predicate IsLower(c: char) { 'a' <= c <= 'z' }

  predicate IsUpper(c: char) { 'A' <= c <= 'Z' }

  predicate IsAlphanumeric(c: char) { IsLower(c) || IsUpper(c) || '0' <= c <= '9' }

  function Lower(c: char): char { if IsUpper(c) then 'a' + (c - 'A') else c }

  // The zero-width boundaries of the key pattern, between two adjacent alphanumeric characters.
  predicate IsBoundary(s: string, i: nat)
    requires 0 < i < |s|
  {
    || (!IsUpper(s[i - 1]) && IsAlphanumeric(s[i - 1]) && IsUpper(s[i]))
    || (IsUpper(s[i - 1]) && IsUpper(s[i]) && i + 1 < |s| && IsLower(s[i + 1]))
  }

  function Flush(word: string): seq<string> { if word == "" then [] else [word] }

  // The words of a key from position i on, `word` being the one under way.
  function WordsFrom(s: string, i: nat, word: string): seq<string>
    requires i <= |s|
    decreases |s| - i
  {
    if i == |s| then Flush(word)
    else if !IsAlphanumeric(s[i]) then Flush(word) + WordsFrom(s, i + 1, "")
    else if i > 0 && word != "" && IsBoundary(s, i) then [word] + WordsFrom(s, i + 1, [Lower(s[i])])
    else WordsFrom(s, i + 1, word + [Lower(s[i])])
  }

  function Components(key: string): seq<string> { WordsFrom(key, 0, "") }

  predicate Contains(s: string, part: string) { exists i :: 0 <= i <= |s| && part <= s[i..] }

  predicate NamesCredential(words: seq<string>)
    requires words != []
  {
    || "authorization" in words || "credential" in words || "password" in words || "secret" in words
    || words[|words| - 1] == "token"
    || var compact := Concat(words);
       || Contains(compact, "accesstoken") || Contains(compact, "apikey") || Contains(compact, "bearertoken")
       || Contains(compact, "clientsecret") || Contains(compact, "privatekey") || Contains(compact, "refreshtoken")
  }

  // The judgement on the components of a key.
  predicate JudgedSensitive(words: seq<string>) {
    words != [] && words[|words| - 1] !in {"id", "ref", "reference"} && NamesCredential(words)
  }

  predicate IsSensitive(key: string) { JudgedSensitive(Components(key)) }

  // ---------- how the words are joined does not matter ----------

  predicate IsWord(w: string) { w != "" && forall i :: 0 <= i < |w| ==> IsLower(w[i]) }

  predicate AreWords(ws: seq<string>) { forall i :: 0 <= i < |ws| ==> IsWord(ws[i]) }

  // api_key, api-key, api.key
  function Joined(ws: seq<string>, glue: char): string {
    if ws == [] then ""
    else if |ws| == 1 then ws[0]
    else ws[0] + [glue] + Joined(ws[1..], glue)
  }

  function Capital(c: char): char { if IsLower(c) then 'A' + (c - 'a') else c }

  function Capitalized(w: string): string { if w == "" then "" else [Capital(w[0])] + w[1..] }

  function AllCapitalized(ws: seq<string>): string {
    if ws == [] then "" else Capitalized(ws[0]) + AllCapitalized(ws[1..])
  }

  // apiKey
  function Camel(ws: seq<string>): string { if ws == [] then "" else ws[0] + AllCapitalized(ws[1..]) }

  lemma {:induction false} ScanLower(s: string, i: nat, word: string, n: nat)
    requires i + n <= |s| && forall k :: i <= k < i + n ==> IsLower(s[k])
    ensures WordsFrom(s, i, word) == WordsFrom(s, i + n, word + s[i..i + n])
    decreases n
  {
    if n == 0 {
      assert word + s[i..i] == word;
    } else {
      ScanLower(s, i + 1, word + [s[i]], n - 1);
      assert word + s[i..i + n] == (word + [s[i]]) + s[i + 1..i + 1 + (n - 1)];
    }
  }

  lemma Suffix(s: string, i: nat, text: string, m: nat)
    requires i <= |s| && s[i..] == text && m <= |text|
    ensures i + |text| == |s| && s[i + m..] == text[m..]
    ensures forall k :: i <= k < |s| ==> s[k] == text[k - i]
  {
  }

  lemma JoinedParts(s: string, i: nat, ws: seq<string>, glue: char)
    requires i <= |s| && s[i..] == Joined(ws, glue) && ws != [] && IsWord(ws[0])
    ensures i + |ws[0]| <= |s| && s[i..i + |ws[0]|] == ws[0] && forall k :: i <= k < i + |ws[0]| ==> IsLower(s[k])
    ensures |ws| == 1 ==> i + |ws[0]| == |s|
    ensures |ws| > 1 ==> i + |ws[0]| < |s| && s[i + |ws[0]|] == glue && s[i + |ws[0]| + 1..] == Joined(ws[1..], glue)
  {
    var w, text := ws[0], Joined(ws, glue);
    Suffix(s, i, text, |w|);
    assert forall k :: 0 <= k < |w| ==> text[k] == w[k];
    if |ws| > 1 {
      Suffix(s, i, text, |w| + 1);
      assert text[|w|] == glue && text[|w| + 1..] == Joined(ws[1..], glue);
    }
  }

  lemma {:induction false} JoinedFrom(s: string, i: nat, ws: seq<string>, glue: char)
    requires i <= |s| && s[i..] == Joined(ws, glue) && AreWords(ws) && !IsAlphanumeric(glue)
    ensures WordsFrom(s, i, "") == ws
    decreases |ws|
  {
    if ws != [] {
      var w, rest := ws[0], ws[1..];
      assert IsWord(w);
      JoinedParts(s, i, ws, glue);
      hide Joined, IsLower;
      ScanLower(s, i, "", |w|);
      assert "" + s[i..i + |w|] == w;
      if |ws| > 1 {
        JoinedFrom(s, i + |w| + 1, rest, glue);
      }
      assert ws == [w] + rest;
    }
  }

  lemma CapitalFacts(c: char)
    requires IsLower(c)
    ensures IsUpper(Capital(c)) && Lower(Capital(c)) == c
  {
  }

  // Where a capitalized word stands in a key, and what follows it.
  lemma CapitalizedAt(s: string, i: nat, w: string, after: string)
    requires i <= |s| && s[i..] == Capitalized(w) + after && IsWord(w)
    ensures i + |w| <= |s| && IsUpper(s[i]) && Lower(s[i]) == w[0] && s[i + |w|..] == after
    ensures forall k :: i + 1 <= k < i + |w| ==> IsLower(s[k])
    ensures s[i + 1..i + 1 + (|w| - 1)] == w[1..]
  {
    var text := Capitalized(w) + after;
    Suffix(s, i, text, |w|);
    CapitalFacts(w[0]);
    hide Capital, Lower, IsUpper, IsLower;
    assert Capitalized(w) == [Capital(w[0])] + w[1..];
    assert forall k :: 0 <= k < |w| ==> text[k] == Capitalized(w)[k];
    assert text[|w|..] == after;
    assert forall k :: 1 <= k < |w| ==> Capitalized(w)[k] == w[k];
  }

  // A capital letter after a small one starts a new word.
  lemma TurnUpper(s: string, i: nat, previous: string)
    requires 0 < i < |s| && IsLower(s[i - 1]) && IsUpper(s[i]) && previous != ""
    ensures WordsFrom(s, i, previous) == [previous] + WordsFrom(s, i + 1, [Lower(s[i])])
  {
  }

  // ---------- what camel case keeps of the words ----------

  // The words, each run of adjacent one-letter words being written as one.
  function MergeRuns(ws: seq<string>): seq<string>
    decreases |ws|, 0
  {
    if ws == [] then []
    else if |ws[0]| == 1 then Glue(ws[0], ws[1..])
    else [ws[0]] + MergeRuns(ws[1..])
  }

  function Glue(run: string, ws: seq<string>): (r: seq<string>)
    ensures r != []
    decreases |ws|, 1
  {
    if ws != [] && |ws[0]| == 1 then Glue(run + ws[0], ws[1..]) else [run] + MergeRuns(ws)
  }

  // The first word is not capitalized, so it stays apart.
  function Merged(ws: seq<string>): seq<string> { if ws == [] then [] else [ws[0]] + MergeRuns(ws[1..]) }

  // No two adjacent words have one letter each.
  ghost predicate LettersApart(ws: seq<string>) {
    forall i, j :: 0 <= i && j == i + 1 && j < |ws| ==> |ws[i]| != 1 || |ws[j]| != 1
  }

  lemma LettersApartCons(ws: seq<string>)
    requires ws != []
    ensures LettersApart(ws) <==> LettersApart(ws[1..]) && (|ws| > 1 && |ws[0]| == 1 ==> |ws[1]| != 1)
  {
    var rest := ws[1..];
    assert forall i :: 0 <= i < |rest| ==> rest[i] == ws[i + 1];
    if LettersApart(rest) && (|ws| > 1 && |ws[0]| == 1 ==> |ws[1]| != 1) {
      forall i, j | 0 <= i && j == i + 1 && j < |ws| ensures |ws[i]| != 1 || |ws[j]| != 1 {
        if i > 0 {
          assert ws[i] == rest[i - 1] && ws[j] == rest[j - 1];
        }
      }
    }
  }

  lemma {:induction false} MergedLength(ws: seq<string>)
    ensures |MergeRuns(ws)| <= |ws| && (!LettersApart(ws) ==> |MergeRuns(ws)| < |ws|)
    ensures LettersApart(ws) ==> MergeRuns(ws) == ws
    decreases |ws|, 0
  {
    if ws != [] {
      LettersApartCons(ws);
      if |ws[0]| == 1 {
        GluedLength(ws[0], ws[1..]);
      } else {
        MergedLength(ws[1..]);
      }
      assert ws == [ws[0]] + ws[1..];
    }
  }

  lemma {:induction false} GluedLength(run: string, ws: seq<string>)
    ensures |Glue(run, ws)| <= 1 + |ws|
    ensures !LettersApart(ws) || (ws != [] && |ws[0]| == 1) ==> |Glue(run, ws)| < 1 + |ws|
    ensures LettersApart(ws) && !(ws != [] && |ws[0]| == 1) ==> Glue(run, ws) == [run] + ws
    decreases |ws|, 1
  {
    if ws != [] && |ws[0]| == 1 {
      GluedLength(run + ws[0], ws[1..]);
    } else {
      MergedLength(ws);
    }
  }

  // A capital letter after a capital one starts a new word exactly when a small letter follows.
  lemma TurnAgain(s: string, i: nat, previous: string)
    requires 0 < i < |s| && IsUpper(s[i - 1]) && IsUpper(s[i]) && previous != ""
    ensures WordsFrom(s, i, previous) ==
            if i + 1 < |s| && IsLower(s[i + 1]) then [previous] + WordsFrom(s, i + 1, [Lower(s[i])])
            else WordsFrom(s, i + 1, previous + [Lower(s[i])])
  {
  }

  // What stands after the words ws: nothing, or a capital letter.
  lemma NextIsCapital(ws: seq<string>)
    requires AreWords(ws)
    ensures AllCapitalized(ws) == "" || (IsUpper(AllCapitalized(ws)[0]) && !IsLower(AllCapitalized(ws)[0]))
    ensures AllCapitalized(ws) == "" <==> ws == []
  {
    if ws != [] {
      assert IsWord(ws[0]);
    }
  }

  // From a position after a small letter.
  lemma {:induction false} CamelFrom(s: string, i: nat, ws: seq<string>, previous: string)
    requires 0 < i <= |s| && s[i..] == AllCapitalized(ws) && IsLower(s[i - 1]) && previous != ""
    requires AreWords(ws)
    ensures WordsFrom(s, i, previous) == [previous] + MergeRuns(ws)
    decreases |ws|, 1
  {
    if ws == [] {
      assert i == |s|;
    } else {
      hide WordsFrom, IsLower, IsUpper, Lower, Capital, Capitalized, Glue;
      var w, rest := ws[0], ws[1..];
      assert IsWord(w) && AreWords(rest);
      CapitalizedAt(s, i, w, AllCapitalized(rest));
      TurnUpper(s, i, previous);
      CapitalizedFrom(s, i, w, rest);
    }
  }

  // From a position inside a capitalized word, its first letter being read.
  lemma CapitalizedFrom(s: string, i: nat, w: string, rest: seq<string>)
    requires i <= |s| && IsWord(w) && AreWords(rest) && s[i..] == Capitalized(w) + AllCapitalized(rest)
    ensures i < |s| && WordsFrom(s, i + 1, [Lower(s[i])]) == if |w| == 1 then Glue(w, rest) else [w] + MergeRuns(rest)
    decreases |rest|, 2
  {
    hide WordsFrom, Lower, IsLower, IsUpper, Capital, Capitalized, AllCapitalized, Glue, MergeRuns, AreWords, IsWord;
    WordRead(s, i, w, AllCapitalized(rest));
    if |w| == 1 {
      CapitalFrom(s, i + 1, rest, w);
    } else {
      CamelFrom(s, i + |w|, rest, w);
    }
  }

  // The rest of a capitalized word is read.
  lemma WordRead(s: string, i: nat, w: string, after: string)
    requires i <= |s| && s[i..] == Capitalized(w) + after && IsWord(w)
    ensures 0 < |w| <= |s| - i && s[i + |w|..] == after
    ensures WordsFrom(s, i + 1, [Lower(s[i])]) == WordsFrom(s, i + |w|, w)
    ensures if |w| == 1 then IsUpper(s[i]) else IsLower(s[i + |w| - 1])
  {
    assert w != "";
    hide WordsFrom, Lower, IsLower, IsUpper, Capital, Capitalized, IsWord;
    CapitalizedAt(s, i, w, after);
    RestRead(s, i + 1, w);
  }

  lemma RestRead(s: string, i: nat, w: string)
    requires w != "" && i + (|w| - 1) <= |s| && s[i..i + (|w| - 1)] == w[1..] && forall k :: i <= k < i + (|w| - 1) ==> IsLower(s[k])
    ensures WordsFrom(s, i, [w[0]]) == WordsFrom(s, i + (|w| - 1), w)
  {
    hide WordsFrom, IsLower;
    ScanLower(s, i, [w[0]], |w| - 1);
    assert [w[0]] + w[1..] == w;
  }

  // From a position after the capital letter of a one-letter word.
  lemma {:induction false} CapitalFrom(s: string, i: nat, ws: seq<string>, run: string)
    requires 0 < i <= |s| && s[i..] == AllCapitalized(ws) && IsUpper(s[i - 1]) && run != ""
    requires AreWords(ws)
    ensures WordsFrom(s, i, run) == Glue(run, ws)
    decreases |ws|, 1
  {
    hide WordsFrom, Lower, IsLower, IsUpper, Capital, Capitalized, MergeRuns, Glue, AllCapitalized;
    if ws == [] {
      EndOfKey(s, i, run);
    } else {
      var w, rest := ws[0], ws[1..];
      assert IsWord(w) && AreWords(rest);
      CapitalizedCons(ws);
      GlueStep(run, ws);
      CapitalizedAt(s, i, w, AllCapitalized(rest));
      TurnAgain(s, i, run);
      if |w| == 1 {
        NextIsCapital(rest);
        assert i + 1 < |s| ==> s[i + 1] == s[i + 1..][0];
        assert w == [w[0]];
        CapitalFrom(s, i + 1, rest, run + w);
      } else {
        CapitalizedFrom(s, i, w, rest);
      }
    }
  }

  lemma EndOfKey(s: string, i: nat, run: string)
    requires i <= |s| && s[i..] == AllCapitalized([]) && run != ""
    ensures WordsFrom(s, i, run) == Glue(run, [])
  {
  }

  lemma CapitalizedCons(ws: seq<string>)
    requires ws != []
    ensures AllCapitalized(ws) == Capitalized(ws[0]) + AllCapitalized(ws[1..])
  {
  }

  lemma GlueStep(run: string, ws: seq<string>)
    requires ws != []
    ensures Glue(run, ws) == if |ws[0]| == 1 then Glue(run + ws[0], ws[1..]) else [run] + ([ws[0]] + MergeRuns(ws[1..]))
  {
  }

  /** A key joined by any punctuation has exactly its words as components. */
  lemma PunctuationSplits(ws: seq<string>, glue: char)
    requires AreWords(ws) && !IsAlphanumeric(glue)
    ensures Components(Joined(ws, glue)) == ws
  {
    JoinedFrom(Joined(ws, glue), 0, ws, glue);
  }

  lemma CamelParts(w: string, after: string)
    requires IsWord(w)
    ensures var s := w + after;
            && s[0..0 + |w|] == w && s[|w|..] == after && forall k :: 0 <= k < |w| ==> IsLower(s[k])
  {
    hide IsLower;
  }

  /** In camel case the components are the words, but for runs of adjacent one-letter words, which become one. */
  lemma CamelSplits(ws: seq<string>)
    requires AreWords(ws)
    ensures Components(Camel(ws)) == Merged(ws)
  {
    if ws != [] {
      hide WordsFrom, IsLower, AllCapitalized, MergeRuns;
      var w, after := ws[0], AllCapitalized(ws[1..]);
      assert IsWord(w);
      CamelParts(w, after);
      ScanLower(w + after, 0, "", |w|);
      assert "" + w == w;
      CamelFrom(w + after, |w|, ws[1..], w);
    }
  }

  /**
   * Spelled in camel case a key has the components it has with punctuation exactly when no two
   * one-letter words are adjacent after the first word; it is judged by its merged words.
   */
  lemma SpellingDoesNotMatter(ws: seq<string>, glue: char)
    requires AreWords(ws) && !IsAlphanumeric(glue)
    ensures Components(Camel(ws)) == Components(Joined(ws, glue)) <==> ws == [] || LettersApart(ws[1..])
    ensures IsSensitive(Joined(ws, glue)) <==> JudgedSensitive(ws)
    ensures IsSensitive(Camel(ws)) <==> JudgedSensitive(Merged(ws))
  {
    hide JudgedSensitive, Components, Camel, Joined, AreWords, IsAlphanumeric, MergeRuns;
    PunctuationSplits(ws, glue);
    CamelSplits(ws);
    if ws != [] {
      MergedLength(ws[1..]);
      assert ws == [ws[0]] + ws[1..];
      assert Merged(ws)[1..] == MergeRuns(ws[1..]);
    }
  }

  predicate IsCredentialPair(part: string) {
    part in {"accesstoken", "apikey", "bearertoken", "clientsecret", "privatekey", "refreshtoken"}
  }

  predicate IsAround(s: string, before: string, part: string, after: string) { s == before + part + after }

  lemma ContainsIff(s: string, part: string)
    ensures Contains(s, part) <==> exists before, after :: IsAround(s, before, part, after)
  {
    if Contains(s, part) {
      var i :| 0 <= i <= |s| && part <= s[i..];
      assert IsAround(s, s[..i], part, s[i + |part|..]);
    }
    if before, after :| IsAround(s, before, part, after) {
      assert s[|before|..] == part + after;
    }
  }

  predicate IsCredentialWord(w: string) { w in {"authorization", "credential", "password", "secret"} }

  predicate HasCredentialWord(ws: seq<string>) { exists w :: w in ws && IsCredentialWord(w) }

  ghost predicate SpellsPair(s: string) { exists part, before, after :: IsCredentialPair(part) && IsAround(s, before, part, after) }

  lemma CredentialIn(ws: seq<string>)
    ensures HasCredentialWord(ws)
            <==> "authorization" in ws || "credential" in ws || "password" in ws || "secret" in ws
  {
    assert forall w :: IsCredentialWord(w) <==> w == "authorization" || w == "credential" || w == "password" || w == "secret";
    hide IsCredentialWord;
  }

  lemma PairIn(s: string)
    ensures SpellsPair(s)
            <==> Contains(s, "accesstoken") || Contains(s, "apikey") || Contains(s, "bearertoken")
                 || Contains(s, "clientsecret") || Contains(s, "privatekey") || Contains(s, "refreshtoken")
  {
    forall part ensures Contains(s, part) <==> exists before, after :: IsAround(s, before, part, after) {
      ContainsIff(s, part);
    }
    assert forall part :: IsCredentialPair(part) <==> part == "accesstoken" || part == "apikey" || part == "bearertoken"
                                                      || part == "clientsecret" || part == "privatekey" || part == "refreshtoken";
    hide IsCredentialPair, Contains, IsAround;
  }

  /**
   * A key made of words is refused exactly when it does not end in a word for a reference, and has one of the
   * four credential words, or ends in "token", or spells one of the six pairs somewhere.
   */
  lemma CredentialKeys(ws: seq<string>, glue: char)
    requires AreWords(ws) && !IsAlphanumeric(glue)
    ensures IsSensitive(Joined(ws, glue)) <==>
              && ws != [] && ws[|ws| - 1] !in {"id", "ref", "reference"}
              && (HasCredentialWord(ws) || ws[|ws| - 1] == "token" || SpellsPair(Concat(ws)))
  {
    hide Components, Joined, AreWords, IsAlphanumeric, Contains, HasCredentialWord, SpellsPair;
    PunctuationSplits(ws, glue);
    if ws != [] {
      CredentialIn(ws);
      PairIn(Concat(ws));
    }
  }

  /** Where it matters, a key can be refused in one spelling and allowed in the other: secret_i_d and secretID. */
  lemma CamelCaseLosesWords()
    ensures IsSensitive(Joined(["secret", "i", "d"], '_')) && !IsSensitive(Camel(["secret", "i", "d"]))
  {
    var ws := ["secret", "i", "d"];
    assert AreWords(ws);
    SpellingDoesNotMatter(ws, '_');
    hide Joined, Camel, Concat, Contains;
    SecretMerged();
  }

  lemma SecretMerged()
    ensures Merged(["secret", "i", "d"]) == ["secret", "id"]
  {
    assert ["secret", "i", "d"][1..] == ["i", "d"] && ["i", "d"][1..] == ["d"] && ["d"][1..] == [];
    assert Glue("id", []) == ["id"];
    assert "i" + "d" == "id";
    assert Glue("i", ["d"]) == Glue("id", []);
  }
}
