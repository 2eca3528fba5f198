/**
 The property id that the admin form derives from a name. The input is the name after
 `normalize('NFD')`, removal of combining accents and `toLowerCase()`; those tables are not
 modelled, and they leave every slug as it is.
 */
module PropertySlug {

  const MAX_LENGTH := 120

  predicate IsWord(c: char) {
    'a' <= c <= 'z' || '0' <= c <= '9'
  }

  /** `.replace(/[^a-z0-9]+/g, '-')` */
  function Runs(s: string): string {
    if s == "" then ""
    else
      var n := |s| - 1;
      var before := Runs(s[..n]);
      if IsWord(s[n]) then before + [s[n]]
      else if n > 0 && !IsWord(s[n - 1]) then before
      else before + ['-']
  }

  /** `.replace(/^-+/, '')` */
  function TrimStart(s: string): string {
    if s != "" && s[0] == '-' then TrimStart(s[1..]) else s
  }

  /** `.replace(/-+$/, '')` */
  function TrimEnd(s: string): string {
    if s != "" && s[|s| - 1] == '-' then TrimEnd(s[..|s| - 1]) else s
  }

  function Cut(s: string): string {
    if |s| <= MAX_LENGTH then s else s[..MAX_LENGTH]
  }

  function Slug(s: string): string {
    TrimEnd(Cut(TrimEnd(TrimStart(Runs(s)))))
  }

  // -------------------------------------------------- what it means: words and hyphens

  /** The maximal runs of letters and digits, in order. */
  function Words(s: string): seq<string> {
    if s == "" then []
    else
      var n := |s| - 1;
      NextWords(Words(s[..n]), InWord(s[..n]), s[n])
  }

  predicate InWord(s: string) {
    s != "" && IsWord(s[|s| - 1])
  }

  function NextWords(words: seq<string>, inWord: bool, c: char): seq<string> {
    if !IsWord(c) then words
    else if inWord && words != [] then words[..|words| - 1] + [words[|words| - 1] + [c]]
    else words + [[c]]
  }

  function Join(words: seq<string>): string {
    if words == [] then ""
    else if |words| == 1 then words[0]
    else Join(words[..|words| - 1]) + ['-'] + words[|words| - 1]
  }

  /** `[a-z0-9]+(-[a-z0-9]+)*`, or empty. */
  predicate Canonical(s: string) {
    && (forall i | 0 <= i < |s| :: IsWord(s[i]) || s[i] == '-')
    && (s != "" ==> IsWord(s[0]) && IsWord(s[|s| - 1]))
    && (forall i | 0 < i < |s| :: IsWord(s[i - 1]) || IsWord(s[i]))
  }

  predicate IsWordText(word: string) {
    word != "" && forall i | 0 <= i < |word| :: IsWord(word[i])
  }

  predicate AllWords(words: seq<string>) {
    forall k | 0 <= k < |words| :: IsWordText(words[k])
  }

  lemma NextAreWords(words: seq<string>, inWord: bool, c: char)
    requires AllWords(words)
    ensures AllWords(NextWords(words, inWord, c)) && (IsWord(c) ==> NextWords(words, inWord, c) != [])
  {
    if IsWord(c) && inWord && words != [] {
      assert IsWordText(words[|words| - 1] + [c]);
    }
  }

  lemma {:induction false} WordsAreWords(s: string)
    ensures AllWords(Words(s))
    ensures InWord(s) ==> Words(s) != []
  {
    if s != "" {
      var before := s[..|s| - 1];
      WordsAreWords(before);
      NextAreWords(Words(before), InWord(before), s[|s| - 1]);
      hide AllWords, NextWords;
    }
  }

  lemma TrimStartOfAppend(s: string, c: char)
    ensures TrimStart(s + [c]) == if TrimStart(s) == "" && c == '-' then "" else TrimStart(s) + [c]
    decreases |s|
  {
    if s == "" {
      assert s + [c] == [c];
    } else {
      assert (s + [c])[1..] == s[1..] + [c];
      if s[0] == '-' {
        TrimStartOfAppend(s[1..], c);
      }
    }
  }

  lemma AppendAssociates(a: string, b: string, c: string)
    ensures a + (b + c) == a + b + c
  {
  }

  lemma JoinOfSplit(init: seq<string>, last: string)
    ensures Join(init + [last]) == if init == [] then last else Join(init) + ['-'] + last
  {
    assert (init + [last])[..|init|] == init;
  }

  lemma JoinOfExtended(words: seq<string>, c: char)
    requires words != []
    ensures Join(words[..|words| - 1] + [words[|words| - 1] + [c]]) == Join(words) + [c]
  {
    hide Join;
    var init, last := words[..|words| - 1], words[|words| - 1];
    assert words == init + [last];
    JoinOfSplit(init, last);
    JoinOfSplit(init, last + [c]);
    AppendAssociates(Join(init) + ['-'], last, [c]);
  }

  lemma JoinOfAppended(words: seq<string>, c: char)
    ensures Join(words + [[c]]) == if words == [] then [c] else Join(words) + ['-'] + [c]
  {
    JoinOfSplit(words, [c]);
  }

  /** Whether the reading so far ends between two words. */
  predicate Separated(s: string) {
    s != "" && !IsWord(s[|s| - 1])
  }

  lemma WordsOfAppend(s: string, c: char)
    ensures Words(s + [c]) == NextWords(Words(s), InWord(s), c)
  {
    assert (s + [c])[..|s|] == s;
    hide NextWords, InWord;
  }

  lemma RunsOfAppend(s: string, c: char)
    ensures Runs(s + [c]) == if IsWord(c) then Runs(s) + [c] else if Separated(s) then Runs(s) else Runs(s) + ['-']
  {
    assert (s + [c])[..|s|] == s;
  }

  /** The words read so far, joined, with a hyphen when a separator follows them. */
  function Reading(words: seq<string>, separated: bool): string {
    if separated && words != [] then Join(words) + ['-'] else Join(words)
  }

  lemma ReadingGrows(words: seq<string>, inWord: bool, c: char)
    ensures words == [] ==> Reading(words, !inWord) == ""
    ensures Reading(NextWords(words, inWord, c), !IsWord(c)) ==
            if IsWord(c) then Reading(words, !inWord) + [c]
            else if !inWord || words == [] then Reading(words, !inWord) else Reading(words, !inWord) + ['-']
  {
    assert Join([]) == "";
    JoinOfAppended(words, c);
    if words != [] { JoinOfExtended(words, c); }
    hide Join;
  }

  lemma {:induction false} RunsJoinWords(s: string)
    ensures TrimStart(Runs(s)) == Reading(Words(s), !InWord(s))
    ensures Words(s) == [] <==> TrimStart(Runs(s)) == ""
  {
    if s == "" {
    } else {
      var n := |s| - 1;
      var before, c := s[..n], s[n];
      assert s == before + [c];
      RunsJoinWords(before);
      WordsAreWords(before);
      assert InWord(s) == IsWord(c) && InWord(before) ==> Words(before) != [];
      WordsOfAppend(before, c);
      RunsOfAppend(before, c);
      TrimStartOfAppend(Runs(before), c);
      TrimStartOfAppend(Runs(before), '-');
      ReadingGrows(Words(before), InWord(before), c);
      hide Reading, Runs, Words, TrimStart, Join;
    }
  }

  lemma {:induction false} JoinIsCanonical(words: seq<string>)
    requires AllWords(words)
    ensures Canonical(Join(words)) && (Join(words) == "" <==> words == [])
  {
    if |words| > 1 {
      var init, last := words[..|words| - 1], words[|words| - 1];
      JoinIsCanonical(init);
      HyphenatedIsCanonical(Join(init), last);
    }
  }

  lemma HyphenatedIsCanonical(left: string, right: string)
    requires Canonical(left) && left != "" && IsWordText(right)
    ensures Canonical(left + ['-'] + right)
  {
    var s := left + ['-'] + right;
    assert s[|left|] == '-';
    forall i | 0 < i < |s| ensures IsWord(s[i - 1]) || IsWord(s[i]) {
      if i < |left| { assert s[i] == left[i] && s[i - 1] == left[i - 1]; }
      else if i == |left| { assert s[i - 1] == left[i - 1]; }
      else { assert s[i] == right[i - |left| - 1]; }
    }
  }

  lemma TrimEndOnce(s: string)
    requires Canonical(s)
    ensures TrimEnd(s) == s && TrimEnd(s + ['-']) == s
  {
    assert (s + ['-'])[..|s|] == s;
  }

  /** Before the cut, the pipeline joins the words of the name with single hyphens. */
  lemma TrimmedRunsJoinWords(s: string)
    ensures TrimEnd(TrimStart(Runs(s))) == Join(Words(s)) && Canonical(Join(Words(s)))
  {
    RunsJoinWords(s);
    WordsAreWords(s);
    hide Words, Join, Runs, TrimStart, TrimEnd;
    JoinIsCanonical(Words(s));
    TrimEndOnce(Join(Words(s)));
  }

  /** Cutting a canonical text leaves at most one hyphen at its end. */
  lemma CutIsCanonical(s: string)
    requires Canonical(s)
    ensures var r := TrimEnd(Cut(s));
            && Canonical(r) && |r| <= MAX_LENGTH && r <= s
            && (|s| <= MAX_LENGTH ==> r == s)
            && (|s| > MAX_LENGTH ==> |r| == if s[MAX_LENGTH - 1] == '-' then MAX_LENGTH - 1 else MAX_LENGTH)
  {
    if |s| <= MAX_LENGTH {
      TrimEndOnce(s);
    } else {
      var cut := s[..MAX_LENGTH];
      if s[MAX_LENGTH - 1] == '-' {
        var r := s[..MAX_LENGTH - 1];
        assert cut == r + ['-'] && IsWord(s[MAX_LENGTH - 2]);
        PrefixIsCanonical(s, MAX_LENGTH - 1);
        TrimEndOnce(r);
      } else {
        PrefixIsCanonical(s, MAX_LENGTH);
        TrimEndOnce(cut);
      }
    }
  }

  lemma PrefixIsCanonical(s: string, n: nat)
    requires Canonical(s) && 0 < n <= |s| && IsWord(s[n - 1])
    ensures Canonical(s[..n])
  {
    var r := s[..n];
    forall i | 0 < i < n ensures IsWord(r[i - 1]) || IsWord(r[i]) {
      assert r[i] == s[i] && r[i - 1] == s[i - 1];
    }
  }

  /**
   For every name: the slug has the promised form and length, it is a prefix of the name's
   words joined by hyphens, and it is all of them exactly when they fit.
   */
  lemma SlugIsCutJoinedWords(s: string)
    ensures Canonical(Slug(s)) && |Slug(s)| <= MAX_LENGTH && Slug(s) <= Join(Words(s))
    ensures Slug(s) == Join(Words(s)) <==> |Join(Words(s))| <= MAX_LENGTH
    ensures |Join(Words(s))| > MAX_LENGTH ==>
              |Slug(s)| == if Join(Words(s))[MAX_LENGTH - 1] == '-' then MAX_LENGTH - 1 else MAX_LENGTH
  {
    hide Words, Join, Runs, Canonical, TrimEnd, TrimStart, Cut;
    TrimmedRunsJoinWords(s);
    CutIsCanonical(Join(Words(s)));
  }

  lemma {:induction false} RunsOfCanonical(s: string, n: nat)
    requires Canonical(s) && n <= |s|
    ensures Runs(s[..n]) == s[..n]
  {
    if n > 0 {
      assert s[..n][..n - 1] == s[..n - 1];
      RunsOfCanonical(s, n - 1);
      assert s[..n] == s[..n - 1] + [s[n - 1]];
      if n > 1 { assert IsWord(s[n - 2]) || IsWord(s[n - 1]); }
    }
  }

  /** Deriving a slug from a slug changes nothing. */
  lemma SlugIsIdempotent(s: string)
    ensures Slug(Slug(s)) == Slug(s)
  {
    hide Words, Join;
    SlugIsCutJoinedWords(s);
    CanonicalIsFixed(Slug(s));
  }

  /** The fixed points of the pipeline are exactly the canonical texts that fit. */
  lemma CanonicalIsFixed(s: string)
    ensures Slug(s) == s <==> Canonical(s) && |s| <= MAX_LENGTH
  {
    if Canonical(s) && |s| <= MAX_LENGTH {
      assert s[..|s|] == s;
      RunsOfCanonical(s, |s|);
      TrimEndOnce(s);
    }
    SlugIsCutJoinedWords(s);
  }

  lemma WordsOfNothing()
    ensures Words("") == []
  {
  }

  lemma WordsOfOne(word: string)
    requires IsWordText(word)
    ensures Words(word) == [word]
  {
    WordsOfNothing();
    hide Words;
    WordsOfWord("", word, |word|);
    assert word[..|word|] == word;
    assert "" + word == word;
  }

  lemma WordsAfterHyphen(joined: string, word: string)
    requires IsWordText(word)
    ensures Words(joined + ['-'] + word) == Words(joined) + [word]
  {
    WordsOfAppend(joined, '-');
    assert word[..|word|] == word;
    hide Words, IsWordText;
    WordsOfWord(joined + ['-'], word, |word|);
  }

  /** Reading back a joined list of words gives the words. */
  lemma {:induction false} WordsOfJoin(words: seq<string>)
    requires AllWords(words)
    ensures Words(Join(words)) == words
  {
    if words != [] {
      var init, last := words[..|words| - 1], words[|words| - 1];
      assert AllWords(init) && IsWordText(last) && words == init + [last];
      hide AllWords, IsWordText, Words, Join;
      JoinOfSplit(init, last);
      if init == [] {
        WordsOfOne(last);
      } else {
        WordsOfJoin(init);
        WordsAfterHyphen(Join(init), last);
      }
    }
  }

  lemma {:induction false} WordsOfWord(left: string, word: string, n: nat)
    requires left == "" || !IsWord(left[|left| - 1])
    requires 0 < n <= |word| && IsWordText(word)
    ensures Words(left + word[..n]) == Words(left) + [word[..n]]
  {
    hide Words;
    var c := word[n - 1];
    assert word[..n] == word[..n - 1] + [c];
    AppendAssociates(left, word[..n - 1], [c]);
    WordsOfAppend(left + word[..n - 1], c);
    if n > 1 {
      WordsOfWord(left, word, n - 1);
      LastReplaced(Words(left), word[..n - 1], word[..n]);
    } else {
      assert word[..0] == "" && left + "" == left && [c] == word[..1];
    }
  }

  lemma LastReplaced(words: seq<string>, last: string, longer: string)
    ensures var all := words + [last];
            all[|all| - 1] == last && all[..|all| - 1] + [longer] == words + [longer]
  {
  }

  lemma SlugKeepsWords(s: string)
    ensures |Join(Words(s))| <= MAX_LENGTH ==> Words(Slug(s)) == Words(s)
  {
    SlugIsCutJoinedWords(s);
    WordsAreWords(s);
    WordsOfJoin(Words(s));
  }

  // -------------------------------------------------------- on the characters alone

  /** The letters and digits of a text, in order. */
  function Letters(s: string): string {
    if s == "" then ""
    else
      var c := s[|s| - 1];
      Letters(s[..|s| - 1]) + if 'a' <= c <= 'z' || '0' <= c <= '9' then [c] else ""
  }

  lemma LettersOfAppend(s: string, c: char)
    ensures Letters(s + [c]) == Letters(s) + if IsWord(c) then [c] else ""
  {
    assert (s + [c])[..|s|] == s;
  }

  lemma {:induction false} LettersOfTrimmed(s: string)
    ensures Letters(TrimStart(s)) == Letters(s)
    ensures Letters(TrimEnd(s)) == Letters(s)
    decreases |s|
  {
    if s != "" {
      var n := |s| - 1;
      assert s == s[..n] + [s[n]];
      LettersOfTrimmed(s[..n]);
      TrimStartOfAppend(s[..n], s[n]);
      LettersOfAppend(s[..n], s[n]);
      LettersOfAppend(TrimStart(s[..n]), s[n]);
      assert Letters("") == "";
    }
  }

  lemma {:induction false} LettersOfRuns(s: string)
    ensures Letters(Runs(s)) == Letters(s)
  {
    if s != "" {
      var n := |s| - 1;
      assert s == s[..n] + [s[n]];
      LettersOfRuns(s[..n]);
      RunsOfAppend(s[..n], s[n]);
      LettersOfAppend(s[..n], s[n]);
      LettersOfAppend(Runs(s[..n]), s[n]);
      LettersOfAppend(Runs(s[..n]), '-');
    }
  }

  lemma {:induction false} LettersOfPrefix(s: string, n: nat)
    requires n <= |s|
    ensures Letters(s[..n]) <= Letters(s)
  {
    if n < |s| {
      var m := |s| - 1;
      assert s[..m][..n] == s[..n] && s == s[..m] + [s[m]];
      LettersOfPrefix(s[..m], n);
      LettersOfAppend(s[..m], s[m]);
    } else {
      assert s[..n] == s;
    }
  }

  /**
   For every name, on its characters: the slug has at most 120, all of them lower-case letters,
   digits or hyphens; its letters and digits are the first ones of the name, in order; and all
   of them when the name itself has at most 120 characters.
   */
  lemma SlugKeepsLetters(s: string)
    ensures |Slug(s)| <= 120
    ensures forall c | c in Slug(s) :: 'a' <= c <= 'z' || '0' <= c <= '9' || c == '-'
    ensures Letters(Slug(s)) <= Letters(s)
    ensures |s| <= 120 ==> Letters(Slug(s)) == Letters(s)
  {
    var trimmed := TrimEnd(TrimStart(Runs(s)));
    LettersOfRuns(s);
    LettersOfTrimmed(Runs(s));
    LettersOfTrimmed(TrimStart(Runs(s)));
    LettersOfTrimmed(Cut(trimmed));
    LettersOfPrefix(trimmed, |Cut(trimmed)|);
    SlugIsCutJoinedWords(s);
    RunsAreShorter(s);
    forall c | c in Slug(s) ensures 'a' <= c <= 'z' || '0' <= c <= '9' || c == '-' {
      var i :| 0 <= i < |Slug(s)| && Slug(s)[i] == c;
    }
    hide Words, Join, Letters, Runs, TrimStart, TrimEnd;
    assert Cut(trimmed) == trimmed[..|Cut(trimmed)|];
  }

  lemma {:induction false} RunsAreShorter(s: string)
    ensures |Runs(s)| <= |s|
    ensures |TrimEnd(TrimStart(Runs(s)))| <= |s|
  {
    if s != "" { RunsAreShorter(s[..|s| - 1]); }
    TrimsAreShorter(Runs(s));
    TrimsAreShorter(TrimStart(Runs(s)));
  }

  lemma {:induction false} TrimsAreShorter(s: string)
    ensures |TrimStart(s)| <= |s| && |TrimEnd(s)| <= |s|
    decreases |s|
  {
    if s != "" {
      TrimsAreShorter(s[1..]);
      TrimsAreShorter(s[..|s| - 1]);
    }
  }
}
