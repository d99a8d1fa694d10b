/** Strings as JavaScript treats them: `trim`, and an empty one that counts as missing. */
module Text {

  /** `s || default`. */
  function Or(s: string, default: string): string {
    if s == "" then default else s
  }

  predicate IsSpace(c: char) {
    || c == ' ' || '\t' <= c <= '\r' || c == '\U{A0}' || c == '\U{1680}' || '\U{2000}' <= c <= '\U{200A}'
    || c == '\U{2028}' || c == '\U{2029}' || c == '\U{202F}' || c == '\U{205F}' || c == '\U{3000}' || c == '\U{FEFF}'
  }

  /** The white space and line terminators of ECMAScript, by code point. */
  lemma SpaceIs(c: char)
    ensures IsSpace(c) <==>
      c as int in {9, 10, 11, 12, 13, 32, 160, 5760, 8192, 8193, 8194, 8195, 8196, 8197, 8198, 8199, 8200, 8201, 8202,
                   8232, 8233, 8239, 8287, 12288, 65279}
  {
  }

  function TrimStart(s: string): string {
    if s != "" && IsSpace(s[0]) then TrimStart(s[1..]) else s
  }

  function TrimEnd(s: string): string
    decreases |s|
  {
    if s != "" && IsSpace(s[|s| - 1]) then TrimEnd(s[..|s| - 1]) else s
  }

  function Trim(s: string): string {
    TrimEnd(TrimStart(s))
  }

  /** No space at either end. */
  predicate IsTrimmed(s: string) {
    s == "" || (!IsSpace(s[0]) && !IsSpace(s[|s| - 1]))
  }

  lemma {:induction false} StartTrimmed(s: string)
    ensures TrimStart(s) == "" || !IsSpace(TrimStart(s)[0])
  {
    if s == "" || !IsSpace(s[0]) {
    } else {
      StartTrimmed(s[1..]);
    }
  }

  lemma {:induction false} EndTrimmed(s: string)
    ensures TrimEnd(s) == "" || !IsSpace(TrimEnd(s)[|TrimEnd(s)| - 1])
    ensures TrimEnd(s) != "" ==> s != "" && TrimEnd(s)[0] == s[0]
    decreases |s|
  {
    if s == "" || !IsSpace(s[|s| - 1]) {
    } else {
      EndTrimmed(s[..|s| - 1]);
    }
  }

  /** Trimming leaves no space at either end, and changes nothing exactly when there was none. */
  lemma TrimTrims(s: string)
    ensures IsTrimmed(Trim(s))
    ensures Trim(s) == s <==> IsTrimmed(s)
    ensures Trim(Trim(s)) == Trim(s)
  {
    StartTrimmed(s);
    EndTrimmed(TrimStart(s));
  }

  predicate Blank(s: string) {
    Trim(s) == ""
  }

  lemma {:induction false} StartEmptyIff(s: string)
    ensures TrimStart(s) == "" <==> forall i | 0 <= i < |s| :: IsSpace(s[i])
  {
    if s == "" || !IsSpace(s[0]) {
    } else {
      StartEmptyIff(s[1..]);
      assert forall i | 0 < i < |s| :: s[i] == s[1..][i - 1];
    }
  }

  lemma {:induction false} EndEmptyIff(s: string)
    ensures TrimEnd(s) == "" <==> forall i | 0 <= i < |s| :: IsSpace(s[i])
    decreases |s|
  {
    if s == "" || !IsSpace(s[|s| - 1]) {
    } else {
      EndEmptyIff(s[..|s| - 1]);
    }
  }

  /** Blank text is text of nothing but space. */
  lemma BlankIff(s: string)
    ensures Blank(s) <==> forall i | 0 <= i < |s| :: IsSpace(s[i])
  {
    StartEmptyIff(s);
    StartTrimmed(s);
    EndEmptyIff(TrimStart(s));
  }

  /** Every run of space as one blank: `s.replace(/\s+/g, ' ')`. */
  function CollapseRuns(s: string, inSpace: bool): string
    decreases |s|
  {
    if s == "" then ""
    else if IsSpace(s[0]) then (if inSpace then "" else " ") + CollapseRuns(s[1..], true)
    else [s[0]] + CollapseRuns(s[1..], false)
  }

  function CollapseWhitespace(s: string): string {
    Trim(CollapseRuns(s, false))
  }

  lemma {:induction false} CollapseRunsKeeps(s: string, inSpace: bool)
    ensures forall c | c in CollapseRuns(s, inSpace) :: c == ' ' || !IsSpace(c)
    ensures forall c | !IsSpace(c) :: c in CollapseRuns(s, inSpace) <==> c in s
    decreases |s|
  {
    if s == "" {
    } else {
      CollapseRunsKeeps(s[1..], true);
      CollapseRunsKeeps(s[1..], false);
      assert s == [s[0]] + s[1..];
    }
  }

  /** No two blanks stand side by side. */
  predicate SingleBlanks(s: string) {
    forall i | 0 <= i < |s| - 1 :: !(s[i] == ' ' && s[i + 1] == ' ')
  }

  lemma {:induction false} CollapseRunsSingle(s: string, inSpace: bool)
    ensures SingleBlanks(CollapseRuns(s, inSpace))
    ensures inSpace && CollapseRuns(s, inSpace) != "" ==> CollapseRuns(s, inSpace)[0] != ' '
    decreases |s|
  {
    if s == "" {
    } else {
      CollapseRunsSingle(s[1..], true);
      CollapseRunsSingle(s[1..], false);
    }
  }

  lemma {:induction false} StartSingle(s: string)
    requires SingleBlanks(s)
    ensures SingleBlanks(TrimStart(s))
  {
    if s == "" || !IsSpace(s[0]) {
    } else {
      assert forall i | 0 <= i < |s| - 1 :: s[1..][i] == s[i + 1];
      StartSingle(s[1..]);
    }
  }

  lemma {:induction false} EndSingle(s: string)
    requires SingleBlanks(s)
    ensures SingleBlanks(TrimEnd(s))
    decreases |s|
  {
    if s == "" || !IsSpace(s[|s| - 1]) {
    } else {
      EndSingle(s[..|s| - 1]);
    }
  }

  lemma {:induction false} StartKeeps(s: string)
    ensures forall c | c in TrimStart(s) :: c in s
  {
    if s == "" || !IsSpace(s[0]) {
    } else {
      StartKeeps(s[1..]);
    }
  }

  lemma {:induction false} EndKeeps(s: string)
    ensures forall c | c in TrimEnd(s) :: c in s
    decreases |s|
  {
    if s == "" || !IsSpace(s[|s| - 1]) {
    } else {
      EndKeeps(s[..|s| - 1]);
    }
  }

  /** Collapsed text is trimmed, has no space but single blanks, and is empty exactly when the text was blank. */
  lemma CollapsedMeans(s: string)
    ensures var t := CollapseWhitespace(s);
      && IsTrimmed(t)
      && (forall c | c in t :: c == ' ' || !IsSpace(c))
      && SingleBlanks(t)
      && (t == "" <==> Blank(s))
  {
    var runs := CollapseRuns(s, false);
    CollapseRunsKeeps(s, false);
    CollapseRunsSingle(s, false);
    StartSingle(runs);
    EndSingle(TrimStart(runs));
    TrimTrims(runs);
    StartKeeps(runs);
    EndKeeps(TrimStart(runs));
    BlankIff(runs);
    BlankIff(s);
    if !Blank(s) {
      var i :| 0 <= i < |s| && !IsSpace(s[i]);
      assert s[i] in s && s[i] in runs;
    }
    if !Blank(runs) {
      var i :| 0 <= i < |runs| && !IsSpace(runs[i]);
      assert runs[i] in runs && runs[i] in s;
    }
  }

  // ---------------------------------------------------------------- what is kept

  predicate AllSpace(s: string) {
    forall c | c in s :: IsSpace(c)
  }

  /** Trimming takes away nothing but space at the two ends. */
  lemma TrimKeeps(s: string) returns (before: string, after: string)
    ensures s == before + Trim(s) + after && AllSpace(before) && AllSpace(after)
  {
    before := StartKept(s);
    after := EndKept(TrimStart(s));
  }

  lemma {:induction false} StartKept(s: string) returns (before: string)
    ensures s == before + TrimStart(s) && AllSpace(before)
  {
    if s == "" || !IsSpace(s[0]) {
      before := "";
    } else {
      var rest := StartKept(s[1..]);
      before := [s[0]] + rest;
      assert s == [s[0]] + s[1..];
    }
  }

  lemma {:induction false} EndKept(s: string) returns (after: string)
    ensures s == TrimEnd(s) + after && AllSpace(after)
    decreases |s|
  {
    if s == "" || !IsSpace(s[|s| - 1]) {
      after := "";
    } else {
      var rest := EndKept(s[..|s| - 1]);
      after := rest + [s[|s| - 1]];
      assert s == s[..|s| - 1] + [s[|s| - 1]];
    }
  }

  /** The words of a text, given the letters of the word that is being read. */
  function WordsFrom(s: string, word: string): seq<string>
    decreases |s|
  {
    var done := if word == "" then [] else [word];
    if s == "" then done
    else if IsSpace(s[0]) then done + WordsFrom(s[1..], "")
    else WordsFrom(s[1..], word + [s[0]])
  }

  function Words(s: string): seq<string> {
    WordsFrom(s, "")
  }

  /** A word ends at the first space; space alone makes no word. */
  lemma WordsAre(word: string, space: char, rest: string)
    requires IsSpace(space) && forall c | c in word :: !IsSpace(c)
    ensures Words(word) == if word == "" then [] else [word]
    ensures Words(word + [space] + rest) == (if word == "" then [] else [word]) + Words(rest)
  {
    ReadWord("", word, "");
    ReadWord("", word, [space] + rest);
    assert "" + word == word && word + "" == word;
    assert word + ([space] + rest) == word + [space] + rest;
    assert ([space] + rest)[1..] == rest;
  }

  lemma {:induction false} ReadWord(start: string, word: string, rest: string)
    requires forall c | c in word :: !IsSpace(c)
    ensures WordsFrom(word + rest, start) == WordsFrom(rest, start + word)
    decreases |word|
  {
    if word == "" {
      assert word + rest == rest && start + word == start;
    } else {
      assert (word + rest)[1..] == word[1..] + rest && (word + rest)[0] == word[0];
      assert word[0] in word;
      ReadWord(start + [word[0]], word[1..], rest);
      assert start + [word[0]] + word[1..] == start + word;
    }
  }

  lemma {:induction false} CollapseRunsKeepsWords(s: string, inSpace: bool, word: string)
    requires inSpace ==> word == ""
    ensures WordsFrom(CollapseRuns(s, inSpace), word) == WordsFrom(s, word)
    decreases |s|
  {
    if s == "" {
    } else if IsSpace(s[0]) {
      CollapseRunsKeepsWords(s[1..], true, "");
      var rest := CollapseRuns(s[1..], true);
      if inSpace {
        assert "" + rest == rest;
      } else {
        assert (" " + rest)[0] == ' ' && (" " + rest)[1..] == rest;
      }
    } else {
      CollapseRunsKeepsWords(s[1..], false, word + [s[0]]);
      assert ([s[0]] + CollapseRuns(s[1..], false))[1..] == CollapseRuns(s[1..], false);
    }
  }

  lemma {:induction false} SpaceBehind(s: string, c: char, word: string)
    requires IsSpace(c)
    ensures WordsFrom(s + [c], word) == WordsFrom(s, word)
    decreases |s|
  {
    if s == "" {
      assert s + [c] == [c] && [c][1..] == "";
    } else {
      assert (s + [c])[1..] == s[1..] + [c];
      SpaceBehind(s[1..], c, if IsSpace(s[0]) then "" else word + [s[0]]);
    }
  }

  lemma {:induction false} TrimStartKeepsWords(s: string)
    ensures Words(TrimStart(s)) == Words(s)
  {
    if s == "" || !IsSpace(s[0]) {
    } else {
      TrimStartKeepsWords(s[1..]);
    }
  }

  lemma {:induction false} TrimEndKeepsWords(s: string)
    ensures Words(TrimEnd(s)) == Words(s)
    decreases |s|
  {
    if s == "" || !IsSpace(s[|s| - 1]) {
    } else {
      TrimEndKeepsWords(s[..|s| - 1]);
      SpaceBehind(s[..|s| - 1], s[|s| - 1], "");
      assert s == s[..|s| - 1] + [s[|s| - 1]];
    }
  }

  /** Collapsing keeps the words of a text, in order. */
  lemma CollapsedKeepsWords(s: string)
    ensures Words(CollapseWhitespace(s)) == Words(s)
  {
    CollapseRunsKeepsWords(s, false, "");
    TrimStartKeepsWords(CollapseRuns(s, false));
    TrimEndKeepsWords(TrimStart(CollapseRuns(s, false)));
  }
}
