/** e2e/scripts/push-to-tesbo.ts: what the title functions compute, told without them. Ids and tags
    character by character; tidy text and prose keys as words. */
module TitleShapes {
  import opened Options
  import opened Text
  import opened SpecTitles
  import opened TitleTags
  import opened TitleKeys
  import opened TitleRecognition

  // ----- ids -----

  predicate IdChars(s: string) {
    forall i | 0 <= i < |s| ::
      '0' <= s[i] <= '9' || 'A' <= s[i] <= 'Z' || 'a' <= s[i] <= 'z' || s[i] == '/' || s[i] == '-'
  }

  /** `n` capitals, perhaps a dash and one more, a dash and a digit. */
  predicate IdStart(id: string, n: nat) {
    && 2 <= n <= 4 && n + 1 < |id| && (forall i | 0 <= i < n :: 'A' <= id[i] <= 'Z') && id[n] == '-'
    && (  '0' <= id[n + 1] <= '9'
       || (n + 3 < |id| && 'A' <= id[n + 1] <= 'Z' && id[n + 2] == '-' && '0' <= id[n + 3] <= '9'))
  }

  lemma {:induction false} UpperRunIs(id: string, n: nat)
    requires n <= |id| && (forall i | 0 <= i < n :: 'A' <= id[i] <= 'Z') && (n == |id| || !('A' <= id[n] <= 'Z'))
    ensures UpperRun(id) == n
  {
    if n > 0 { UpperRunIs(id[1..], n - 1); }
  }

  lemma {:induction false} UpperRunUpper(id: string)
    ensures forall i | 0 <= i < UpperRun(id) :: 'A' <= id[i] <= 'Z'
  {
    if id != "" && IsUpper(id[0]) {
      UpperRunUpper(id[1..]);
      assert forall i | 1 <= i < UpperRun(id) :: id[i] == id[1..][i - 1];
    }
  }

  lemma SpecIdIff(id: string)
    ensures IsSpecId(id) <==> exists n: nat :: IdStart(id, n)
  {
    UpperRunUpper(id);
    forall n: nat | IdStart(id, n) ensures IsSpecId(id) {
      UpperRunIs(id, n);
    }
    if IsSpecId(id) { assert IdStart(id, UpperRun(id)); }
  }

  /** A title carries an id exactly when it is an id, white space and a body on one line; then these
      are its parts. Any other title is all body. */
  lemma SplitsInto(title: string, id: string, gap: string, body: string)
    requires title == id + (gap + body) && gap != "" && AllSpace(gap) && (body == "" || !IsSpace(body[0]))
    requires IdChars(id) && forall i | 0 <= i < |body| :: !IsLineTerminator(body[i])
    ensures SplitSpecId(title) == if exists n: nat :: IdStart(id, n) then Parts(Some(id), body) else Parts(None, title)
  {
    hide IsSpecId, IdStart, TrimStart;
    SpecIdIff(id);
    SpaceIsNoId(gap);
    IdRunIs(id, gap + body);
    assert title[..|id|] == id && title[|id|..] == gap + body && title[|id|] == gap[0];
    TrimStartSkips(gap, body);
    StartStays(body);
  }

  lemma {:induction false} IdRunIs(id: string, rest: string)
    requires IdChars(id) && (rest == "" || !IsIdChar(rest[0]))
    ensures IdRun(id + rest) == |id|
  {
    if id == "" {
      assert id + rest == rest;
    } else {
      assert (id + rest)[1..] == id[1..] + rest;
      IdRunIs(id[1..], rest);
    }
  }

  lemma SpaceIsNoId(gap: string)
    requires gap != "" && AllSpace(gap)
    ensures !IsIdChar(gap[0])
  {
    assert IsSpace(gap[0]);
  }

  lemma SplitHasParts(title: string) returns (gap: string)
    requires SplitSpecId(title).id.Some?
    ensures var Parts(id, body) := SplitSpecId(title);
      && title == id.value + (gap + body) && gap != "" && AllSpace(gap) && (body == "" || !IsSpace(body[0]))
      && IdChars(id.value) && (exists n: nat :: IdStart(id.value, n))
      && forall i | 0 <= i < |body| :: !IsLineTerminator(body[i])
  {
    hide IsSpecId, IdStart, TrimStart, IsSpace, IsLineTerminator;
    var n := IdRun(title);
    var rest := title[n..];
    TrimStartSplits(rest);
    SpecIdIff(title[..n]);
    gap := rest[..|rest| - |TrimStart(rest)|];
    GapIsThere(rest);
    assert title == title[..n] + (gap + TrimStart(rest));
  }

  lemma WithoutIdAllIsBody(title: string)
    ensures SplitSpecId(title).id.None? ==> SplitSpecId(title).body == title
  {
  }

  lemma GapIsThere(rest: string)
    requires rest != "" && IsSpace(rest[0])
    ensures |TrimStart(rest)| < |rest|
  {
    TrimStartSplits(rest[1..]);
  }

  // ----- tags -----

  /** The tag of a title is the trimmed text between its last pair of brackets, when nothing but white
      space follows and nothing in front is left open. */
  lemma TagReads(front: string, text: string, w: string)
    requires !LeavesOpen(front) && text != "" && ']' !in text && AllSpace(w)
    ensures TagOf(front + ("[" + text + "]" + w)) == Some(Trim(text))
  {
    hide Trim, IsSpace;
    var tail := "[" + text + "]" + w;
    var rest := text + ("]" + w);
    assert tail[0] == '[' && tail[1..] == rest;
    ClosesAfter(text, "]" + w);
    assert ("]" + w)[0] == ']' && ("]" + w)[1..] == w;
    InsideAfter(text, "]" + w);
    assert Inside("]" + w) == "" && text + "" == text;
    assert tail[1] == text[0] && text[0] in text;
    assert TagOf(tail) == Some(Trim(Inside(rest)));
    BracketIsNoSpace(tail);
    TagFound(front, tail);
  }

  lemma BracketIsNoSpace(s: string)
    requires s != "" && s[0] == '['
    ensures !AllSpace(s)
  {
  }

  // ----- words -----

  /** The length of the word that a string starts with. */
  function WordLength(s: string, inWord: char -> bool): (n: nat)
    ensures n <= |s| && (n < |s| ==> !inWord(s[n])) && (forall i | 0 <= i < n :: inWord(s[i]))
    ensures n == 0 ==> s == "" || !inWord(s[0])
  {
    if s != "" && inWord(s[0]) then 1 + WordLength(s[1..], inWord) else 0
  }

  /** The longest stretches of such characters, in order. */
  function WordsOf(s: string, inWord: char -> bool): seq<string>
    decreases |s|
  {
    if s == "" then []
    else if !inWord(s[0]) then WordsOf(s[1..], inWord)
    else [s[..WordLength(s, inWord)]] + WordsOf(s[WordLength(s, inWord)..], inWord)
  }

  predicate InKey(c: char) {
    'a' <= c <= 'z' || '0' <= c <= '9'
  }

  predicate InText(c: char) {
    !IsSpace(c)
  }

  function Skip(s: string, inWord: char -> bool): (r: string)
    ensures |r| <= |s| && (r == "" || inWord(r[0])) && (s != "" && !inWord(s[0]) ==> |r| < |s|)
  {
    if s != "" && !inWord(s[0]) then Skip(s[1..], inWord) else s
  }

  /** Every stretch of other characters made one space. */
  function Gapped(s: string, inWord: char -> bool): string
    decreases |s|
  {
    if s == "" then ""
    else if inWord(s[0]) then [s[0]] + Gapped(s[1..], inWord)
    else " " + Gapped(Skip(s, inWord), inWord)
  }

  lemma {:induction false} WordsAfterSkip(s: string, inWord: char -> bool)
    ensures WordsOf(Skip(s, inWord), inWord) == WordsOf(s, inWord)
  {
    if s != "" && !inWord(s[0]) { WordsAfterSkip(s[1..], inWord); }
  }

  lemma WordsStep(s: string, inWord: char -> bool)
    requires s != "" && inWord(s[0])
    ensures var n := WordLength(s, inWord); n > 0 && WordsOf(s, inWord) == [s[..n]] + WordsOf(s[n..], inWord)
  {
  }

  /** Each word with a space in front. */
  function Led(words: seq<string>): string {
    if words == [] then "" else " " + words[0] + Led(words[1..])
  }

  lemma {:induction false} LedIsJoined(words: seq<string>)
    requires words != []
    ensures Led(words) == " " + Join(words, " ")
  {
    var first, rest := words[0], words[1..];
    if rest != [] {
      LedIsJoined(rest);
      assert " " + first + (" " + Join(rest, " ")) == " " + (first + " " + Join(rest, " "));
    } else {
      assert " " + first + "" == " " + first;
    }
  }

  lemma {:induction false} GappedCopies(w: string, rest: string, inWord: char -> bool)
    requires forall i | 0 <= i < |w| :: inWord(w[i])
    ensures Gapped(w + rest, inWord) == w + Gapped(rest, inWord)
  {
    if w == "" {
      assert w + rest == rest;
    } else {
      assert (w + rest)[0] == w[0] && (w + rest)[1..] == w[1..] + rest;
      GappedCopies(w[1..], rest, inWord);
      assert [w[0]] + w[1..] == w;
    }
  }

  /** The space that a string which starts with a word lacks. */
  function Lead(s: string, inWord: char -> bool): string {
    if s != "" && inWord(s[0]) then " " else ""
  }

  /** The gapped form is its words, each behind a space, and at most one more space at the end. */
  lemma {:induction false} GappedWords(s: string, inWord: char -> bool) returns (end: string)
    ensures end == "" || end == " "
    ensures Lead(s, inWord) + Gapped(s, inWord) == Led(WordsOf(s, inWord)) + end
    decreases |s|
  {
    hide WordsOf, Led, Gapped;
    if s == "" {
      end := "";
      NothingGapped(inWord);
    } else if inWord(s[0]) {
      var n := WordLength(s, inWord);
      var w, rest := s[..n], s[n..];
      WordsStep(s, inWord);
      end := GappedWords(rest, inWord);
      assert s == w + rest && Lead(rest, inWord) == "";
      GappedCopies(w, rest, inWord);
      LedMore(w, WordsOf(rest, inWord), Gapped(rest, inWord), end);
    } else {
      var rest := Skip(s, inWord);
      end := GappedWords(rest, inWord);
      WordsAfterSkip(s, inWord);
      GapStep(s, inWord);
      if rest == "" {
        NothingGapped(inWord);
        end := " ";
        assert "" + (" " + "") == "" + " ";
      } else {
        assert "" + (" " + Gapped(rest, inWord)) == " " + Gapped(rest, inWord);
      }
    }
  }

  lemma NothingGapped(inWord: char -> bool)
    ensures WordsOf("", inWord) == [] && Gapped("", inWord) == "" && Led([]) == ""
  {
  }

  lemma GapStep(s: string, inWord: char -> bool)
    requires s != "" && !inWord(s[0])
    ensures Gapped(s, inWord) == " " + Gapped(Skip(s, inWord), inWord)
  {
  }

  lemma LedMore(w: string, words: seq<string>, gapped: string, end: string)
    requires "" + gapped == Led(words) + end
    ensures " " + (w + gapped) == Led([w] + words) + end
  {
    assert ([w] + words)[1..] == words;
    assert " " + (w + (Led(words) + end)) == " " + w + Led(words) + end;
    assert gapped == "" + gapped;
  }

  lemma {:induction false} WordsAreSolid(s: string, inWord: char -> bool)
    requires forall c :: inWord(c) ==> !IsSpace(c)
    ensures forall i | 0 <= i < |WordsOf(s, inWord)| ::
      WordsOf(s, inWord)[i] != "" && forall c | c in WordsOf(s, inWord)[i] :: !IsSpace(c)
    decreases |s|
  {
    hide IsSpace;
    if s != "" { WordsAreSolid(if inWord(s[0]) then s[WordLength(s, inWord)..] else s[1..], inWord); }
  }

  lemma {:induction false} JoinedWords(words: seq<string>)
    requires words != [] && forall i | 0 <= i < |words| :: words[i] != "" && forall c | c in words[i] :: !IsSpace(c)
    ensures Join(words, " ") != "" && Trimmed(Join(words, " "))
  {
    hide IsSpace;
    assert words[0][0] in words[0] && words[0][|words[0]| - 1] in words[0];
    if |words| > 1 {
      assert forall i | 0 <= i < |words[1..]| :: words[1..][i] == words[i + 1];
      JoinedWords(words[1..]);
      var a, b := words[0] + " ", Join(words[1..], " ");
      assert (a + b)[0] == words[0][0] && (a + b)[|a + b| - 1] == b[|b| - 1];
    }
  }

  /** Trimmed, it is exactly the words with single spaces between them. */
  lemma GappedTrims(s: string, inWord: char -> bool)
    requires forall c :: inWord(c) ==> !IsSpace(c)
    ensures Trim(Gapped(s, inWord)) == Join(WordsOf(s, inWord), " ")
  {
    hide IsSpace, WordsOf, Gapped, TrimStart, TrimEnd;
    hide Join, Led;
    var end := GappedWords(s, inWord);
    var words := WordsOf(s, inWord);
    SpaceIsSpace();
    if words == [] {
      NoWordInFront(s, inWord);
      NothingGapped(inWord);
      assert "" + Gapped(s, inWord) == Gapped(s, inWord) && "" + end == end;
      TrimBlank(end);
    } else {
      WordsAreSolid(s, inWord);
      JoinedWords(words);
      LedIsJoined(words);
      var text, gapped := Join(words, " "), Gapped(s, inWord);
      if Lead(s, inWord) == "" {
        assert "" + gapped == gapped;
        TrimAround(" ", text, end);
      } else {
        assert (" " + gapped)[1..] == gapped && (" " + text + end)[1..] == text + end;
        assert "" + text + end == text + end;
        TrimAround("", text, end);
      }
    }
  }

  lemma NoWordInFront(s: string, inWord: char -> bool)
    requires WordsOf(s, inWord) == []
    ensures Lead(s, inWord) == ""
  {
  }

  lemma TrimBlank(end: string)
    requires end == "" || end == " "
    ensures Trim(end) == "" && Join([], " ") == ""
  {
    SpaceIsSpace();
    TrimOfBlank(end);
  }

  lemma TrimAround(lead: string, text: string, end: string)
    requires text != "" && Trimmed(text) && AllSpace(lead) && AllSpace(end)
    ensures Trim(lead + text + end) == text
  {
    hide IsSpace;
    assert lead + text + end == lead + (text + end);
    TrimStartSkips(lead, text + end);
    assert (text + end)[0] == text[0];
    StartStays(text + end);
    TrimEndSkips(text, end);
    TrimmedIsFixed(text);
  }

  // ----- tidy text and keys, told as words -----

  lemma {:induction false} CollapseIsGapped(s: string)
    ensures TrimStart(s) == Skip(s, InText) && Collapse(s) == Gapped(s, InText)
    decreases |s|
  {
    if s != "" {
      CollapseIsGapped(s[1..]);
      if IsSpace(s[0]) {
        TrimStartSplits(s);
        CollapseIsGapped(Skip(s, InText));
      }
    }
  }

  /** Tidy text is the words of the text with single spaces between them. */
  lemma TidyIsWords(s: string)
    ensures Tidy(s) == Join(WordsOf(s, InText), " ")
  {
    hide Trim, Collapse, WordsOf, Gapped;
    CollapseIsGapped(s);
    GappedTrims(s, InText);
  }

  lemma {:induction false} SpacedIsGapped(s: string)
    ensures SkipGap(s) == Skip(s, InKey) && Spaced(s) == Gapped(s, InKey)
    decreases |s|
  {
    if s != "" {
      SpacedIsGapped(s[1..]);
      if !InKey(s[0]) {
        SpacedIsGapped(Skip(s[1..], InKey));
      }
    }
  }

  /** A prose key is the stretches of small letters and digits of the lower-cased text, with single
      spaces between them. */
  lemma KeyIsWords(s: string)
    ensures Squash(s) == Join(WordsOf(Lower(s), InKey), " ")
  {
    hide Trim, Spaced, WordsOf, Gapped, Lower;
    SpacedIsGapped(Lower(s));
    KeyCharsAreNoSpace();
    GappedTrims(Lower(s), InKey);
  }

  lemma KeyCharsAreNoSpace()
    ensures forall c :: InKey(c) ==> !IsSpace(c)
  {
  }

  /** Lower-casing changes the capitals A to Z and, of the other characters, only the two whose lower
      case is longer or another letter's. */
  lemma {:induction false} LowerIs(s: string)
    requires '\U{212A}' !in s && '\U{130}' !in s
    ensures |Lower(s)| == |s|
    ensures forall i | 0 <= i < |s| ::
      Lower(s)[i] as int == if 'A' <= s[i] <= 'Z' then s[i] as int - 'A' as int + 'a' as int else s[i] as int
  {
    if s != "" {
      assert s == [s[0]] + s[1..];
      LowerIs(s[1..]);
      assert Lower(s) == [AsciiLower(s[0])] + Lower(s[1..]);
    }
  }

  /** The printed title: the house style's words, then the bracketed id of a spec that has one, and the
      describe path in front of a spec that has none. */
  lemma TitleIsWords(spec: Spec)
    ensures var Parts(id, body) := SplitSpecId(spec.title);
      var path := Join(spec.suitePath, " ");
      CaseTitle(spec) == Join(WordsOf(
        if id.Some? then "Verify that " + body + " [" + id.value + "]"
        else if !AllSpace(path) then "Verify " + Trim(path) + " " + body
        else "Verify that " + body, InText), " ")
  {
    hide SplitSpecId, Tidy, WordsOf, Trim, Join;
    var Parts(id, body) := SplitSpecId(spec.title);
    ContextIsBlankIff(spec);
    TidyIsWords(if id.Some? then "Verify that " + body + " [" + id.value + "]"
                else if Context(spec) != "" then "Verify " + Context(spec) + " " + body
                else "Verify that " + body);
  }
}
