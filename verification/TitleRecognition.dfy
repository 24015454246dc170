/** e2e/scripts/push-to-tesbo.ts: when the prose key of a printed title is the key its spec will be
    looked up under, for specs without an id. */
module TitleRecognition {
  import opened Options
  import opened Text
  import opened SpecTitles
  import opened TitleTags
  import opened TitleKeys

  // ----- stripping a tag commutes with tidying -----

  lemma {:induction false} ClosesCollapsed(s: string)
    ensures ClosesAtEnd(Collapse(s)) == ClosesAtEnd(s)
    decreases |s|
  {
    if s != "" {
      if IsSpace(s[0]) {
        TrimStartSplits(s);
        var t := TrimStart(s);
        var w := s[..|s| - |t|];
        BlankHasNoBracket(w);
        ClosesAfter(w, t);
        ClosesAfter(" ", Collapse(t));
        ClosesCollapsed(t);
      } else {
        assert Collapse(s)[0] == s[0] && Collapse(s)[1..] == Collapse(s[1..]);
        if s[0] == ']' { CollapseKeepsBlank(s[1..]); } else { ClosesCollapsed(s[1..]); }
      }
    }
  }

  lemma TagHereCollapsed(t: string)
    requires t == "" || !IsSpace(t[0])
    ensures TagHere(Collapse(t)) == TagHere(t)
  {
    if t != "" {
      assert Collapse(t)[0] == t[0] && Collapse(t)[1..] == Collapse(t[1..]);
      ClosesCollapsed(t[1..]);
    }
  }

  /** White space in front of a string goes with the tag or stays. */
  lemma {:induction false} StripGap(w: string, t: string)
    requires AllSpace(w) && (t == "" || !IsSpace(t[0]))
    ensures StripTag(w + t) == if TagHere(t) then "" else w + StripTag(t)
  {
    if w == "" {
      assert w + t == t && TrimStart(t) == t;
      assert "" + StripTag(t) == StripTag(t);
    } else {
      TrimStartSkips(w, t);
      assert (w + t)[0] == w[0] && (w + t)[1..] == w[1..] + t && w == [w[0]] + w[1..];
      StripGap(w[1..], t);
    }
  }

  /** A string that starts a tag is all of it; otherwise its first character stays. */
  lemma StripHead(t: string)
    requires t != "" && !IsSpace(t[0])
    ensures StripTag(t) == if TagHere(t) then "" else [t[0]] + StripTag(t[1..])
  {
    assert TrimStart(t) == t;
  }

  lemma {:induction false} StripCollapse(s: string)
    ensures StripTag(Collapse(s)) == Collapse(StripTag(s))
    decreases |s|
  {
    hide StripTag, TagHere;
    if s == "" {
      StripNothing();
    } else if IsSpace(s[0]) {
      TrimStartSplits(s);
      var t := TrimStart(s);
      var w := s[..|s| - |t|];
      StripGap(w, t);
      TagHereCollapsed(t);
      assert Collapse(t) == "" || !IsSpace(Collapse(t)[0]);
      StripGap(" ", Collapse(t));
      StripCollapse(t);
      if !TagHere(t) {
        if t == "" { StripNothing(); } else { StripHead(t); }
        assert TrimStart(StripTag(t)) == StripTag(t);
        CollapseGap(w, StripTag(t));
      }
    } else {
      StripHead(s);
      TagHereCollapsed(s);
      assert Collapse(s)[0] == s[0] && Collapse(s)[1..] == Collapse(s[1..]);
      StripHead(Collapse(s));
      if !TagHere(s) {
        StripCollapse(s[1..]);
        var kept := [s[0]] + StripTag(s[1..]);
        assert kept[1..] == StripTag(s[1..]);
      }
    }
  }

  lemma StripNothing()
    ensures StripTag("") == "" && !TagHere("") && Collapse("") == ""
  {
  }

  lemma StripTrimStart(s: string)
    ensures StripTag(TrimStart(s)) == TrimStart(StripTag(s))
  {
    TrimStartSplits(s);
    var t := TrimStart(s);
    var w := s[..|s| - |t|];
    StripGap(w, t);
    if t != "" { StripHead(t); }
    if !TagHere(t) {
      assert TrimStart(StripTag(t)) == StripTag(t);
      TrimStartSkips(w, StripTag(t));
    }
  }

  lemma {:induction false} ClosesTail(s: string, w: string)
    requires AllSpace(w) && s != ""
    ensures ClosesAtEnd(s + w) == ClosesAtEnd(s)
  {
    assert (s + w)[0] == s[0] && (s + w)[1..] == s[1..] + w;
    if s[0] == ']' {
      var x := s[1..];
      assert AllSpace(x + w) <==> AllSpace(x) by {
        if AllSpace(x + w) { assert forall i | 0 <= i < |x| :: x[i] == (x + w)[i]; }
      }
    } else if s[1..] != "" {
      ClosesTail(s[1..], w);
    } else {
      BlankHasNoBracket(w);
      ClosesAfter(w, "");
      assert s[1..] + w == w && w + "" == w;
    }
  }

  lemma TagHereTail(s: string, w: string)
    requires AllSpace(w) && s != "" && !IsSpace(s[0])
    ensures TagHere(s + w) == TagHere(s)
  {
    assert (s + w)[0] == s[0] && (s + w)[1..] == s[1..] + w;
    if s[1..] != "" {
      ClosesTail(s[1..], w);
    } else {
      BlankHasNoBracket(w);
      ClosesAfter(w, "");
      assert s[1..] + w == w && w + "" == w;
    }
  }

  /** White space at the end of a string goes with its tag, or there is no tag and all of it stays. */
  predicate TailGoesWithTag(s: string, w: string) {
    && (StripTag(s + w) == StripTag(s) || (StripTag(s) == s && StripTag(s + w) == s + w))
    && (StripTag(s) == "" || !IsSpace(StripTag(s)[|StripTag(s)| - 1]))
    && (StripTag(s) == "" ==> TagHere(TrimStart(s)) && StripTag(s + w) == "")
  }

  lemma {:induction false} StripTail(s: string, w: string)
    requires AllSpace(w) && s != "" && !IsSpace(s[|s| - 1])
    ensures TailGoesWithTag(s, w)
  {
    hide *;
    var t, rest := TrimStart(s), s[1..];
    TrimStartAppend(s, w);
    TrimStartSplits(s);
    TagHereTail(t, w);
    SplitFirst(s, w);
    StripStep(s);
    StripStep(s + w);
    if TagHere(t) {
      TailSettled(s, w);
    } else if rest == "" {
      StripNothing();
      BlankStays(w);
      assert rest + w == w;
      TailSettled(s, w);
    } else {
      StripTail(rest, w);
      TailGrows(s, w);
    }
  }

  lemma SplitFirst(s: string, w: string)
    requires s != ""
    ensures s + w != "" && (s + w)[0] == s[0] && (s + w)[1..] == s[1..] + w && s == [s[0]] + s[1..]
  {
  }

  lemma TailSettled(s: string, w: string)
    requires s != "" && AllSpace(w)
    requires
      || (StripTag(s) == "" && StripTag(s + w) == "" && TagHere(TrimStart(s)))
      || (StripTag(s) == s && StripTag(s + w) == s + w && !IsSpace(s[|s| - 1]))
    ensures TailGoesWithTag(s, w)
  {
    hide StripTag, TagHere, TrimStart;
  }

  lemma TailGrows(s: string, w: string)
    requires |s| > 1 && TailGoesWithTag(s[1..], w)
    requires !TagHere(TrimStart(s)) && StripTag(s) == [s[0]] + StripTag(s[1..])
      && StripTag(s + w) == [s[0]] + StripTag(s[1..] + w)
    ensures TailGoesWithTag(s, w)
  {
    hide StripTag, TagHere;
    assert [s[0]] + s[1..] == s && [s[0]] + (s[1..] + w) == s + w;
    assert IsSpace(s[0]) ==> TrimStart(s) == TrimStart(s[1..]);
  }

  lemma StripStep(s: string)
    requires s != ""
    ensures StripTag(s) == if TagHere(TrimStart(s)) then "" else [s[0]] + StripTag(s[1..])
  {
  }

  lemma BlankStays(w: string)
    requires AllSpace(w)
    ensures StripTag(w) == w
  {
    StripGap(w, "");
    assert w + "" == w;
  }

  lemma StripTrimEnd(s: string)
    ensures StripTag(TrimEnd(s)) == TrimEnd(StripTag(s))
  {
    TrimEndSplits(s);
    var x, w := TrimEnd(s), s[|TrimEnd(s)|..];
    assert s == x + w;
    if x == "" {
      assert s == w;
      BlankStays(w);
    } else {
      StripTail(x, w);
      if StripTag(s) == StripTag(x) {
        assert TrimEnd(StripTag(x)) == StripTag(x);
      } else {
        TrimEndSkips(x, w);
        assert TrimEnd(x) == x;
      }
    }
  }

  lemma StripTidy(s: string)
    ensures StripTag(Tidy(s)) == Tidy(StripTag(s))
  {
    hide StripTag, Collapse, TrimStart, TrimEnd;
    StripCollapse(s);
    StripTrimStart(Collapse(s));
    StripTrimEnd(TrimStart(Collapse(s)));
  }

  // ----- the printed title, its tag stripped -----

  /** What the reader keeps of the spec's own wording: context and body before any tag. */
  function Wording(spec: Spec): string {
    var body := SplitSpecId(spec.title).body;
    StripTag(if Context(spec) != "" then Join(spec.suitePath, " ") + " " + body else body)
  }

  /** What the printed title puts in front. */
  function LeadIn(spec: Spec): string {
    if Context(spec) != "" then "Verify" else "Verify that"
  }

  /** The key that the printed title should have. */
  function OwnKey(spec: Spec): string {
    ProseKey(Wording(spec))
  }

  lemma OwnKeyIsCandidate(spec: Spec)
    ensures OwnKey(spec) in CandidateKeys(spec)
  {
    var c := Join(spec.suitePath, " ");
    if Context(spec) != "" {
      assert c != "" by { if c == "" { TrimmedIsFixed(""); } }
      assert CandidateKeys(spec)[1] == OwnKey(spec);
    } else {
      assert CandidateKeys(spec)[0] == OwnKey(spec);
    }
  }

  lemma ContextIsBlankIff(spec: Spec)
    ensures Context(spec) == "" <==> AllSpace(Join(spec.suitePath, " "))
  {
    var c := Join(spec.suitePath, " ");
    if AllSpace(c) { TrimOfBlank(c); } else { var w, r := CoreSplit(c); }
  }

  lemma LeadWords()
    ensures (forall i | 0 <= i < 6 :: !IsSpace("Verify"[i])) && (forall i | 0 <= i < 4 :: !IsSpace("that"[i]))
    ensures IsSpace(' ') && AllSpace(" ")
  {
  }

  lemma TidyVerify(s: string)
    ensures Tidy("Verify" + (" " + s)) == if Tidy(s) == "" then "Verify" else "Verify" + " " + Tidy(s)
    ensures Tidy("that" + (" " + s)) == if Tidy(s) == "" then "that" else "that" + " " + Tidy(s)
  {
    hide Tidy, IsSpace, AllSpace;
    LeadWords();
    TidySkips(" ", s);
    TidyWord("Verify", " " + s);
    TidyWord("that", " " + s);
  }

  lemma TidyLead(lead: string, s: string)
    requires lead == "Verify" || lead == "Verify that"
    ensures Tidy(lead + " " + s) == if Tidy(s) == "" then lead else lead + " " + Tidy(s)
  {
    hide Tidy;
    TidyVerify(s);
    TidyVerify("that" + (" " + s));
    assert "Verify" + " " + s == "Verify" + (" " + s);
    assert "Verify that" + " " + s == "Verify" + (" " + ("that" + (" " + s)));
    assert "Verify" + " " + "that" == "Verify that";
    assert "Verify" + " " + ("that" + " " + Tidy(s)) == "Verify that" + " " + Tidy(s);
  }

  /** A title is its lead-in and its tidied wording; the tag goes with the wording. */
  lemma StripLead(lead: string, z: string)
    requires '[' !in lead && lead != "" && !IsSpace(lead[|lead| - 1])
    requires z != "" && !IsSpace(z[0])
    ensures StripTag(lead + " " + z) == if StripTag(z) == "" then lead else lead + " " + StripTag(z)
  {
    hide TrimStart, StripTag, TagHere;
    StripHead(z);
    StripGap(" ", z);
    CopyLead(lead, " " + z);
    Regroup(lead, z);
    Regroup(lead, StripTag(z));
  }

  lemma Regroup(lead: string, z: string)
    ensures lead + " " + z == lead + (" " + z) && lead + "" == lead
  {
  }

  lemma {:induction false} CopyLead(lead: string, s: string)
    requires '[' !in lead && (lead == "" || !IsSpace(lead[|lead| - 1]))
    ensures StripTag(lead + s) == lead + StripTag(s)
  {
    hide StripTag, TrimStart;
    if lead == "" {
      assert lead + s == s;
    } else {
      assert (lead + s)[0] == lead[0] && (lead + s)[1..] == lead[1..] + s && lead == [lead[0]] + lead[1..];
      TrimStartAppend(lead, s);
      assert TrimStart(lead)[0] in lead by { TrimStartSplits(lead); }
      StripStep(lead + s);
      CopyLead(lead[1..], s);
    }
  }

  lemma PrintedWording(spec: Spec)
    requires SplitSpecId(spec.title).id.None?
    ensures var x := Tidy(Wording(spec));
            StripTag(CaseTitle(spec)) == if x == "" then LeadIn(spec) else LeadIn(spec) + " " + x
  {
    hide SplitSpecId, Tidy, StripTag, Trim;
    var body, c := SplitSpecId(spec.title).body, Join(spec.suitePath, " ");
    ContextIsBlankIff(spec);
    var raw := if Context(spec) != "" then c + " " + body else body;
    if Context(spec) != "" {
      TidyContext(c, body);
      assert "Verify " + Context(spec) + " " + body == "Verify" + " " + (Context(spec) + " " + body);
      TidyLead("Verify", Context(spec) + " " + body);
    } else {
      assert "Verify that " + body == "Verify that" + " " + body;
      TidyLead("Verify that", body);
    }
    StripTidy(raw);
    TidyStart(raw);
    if Tidy(raw) == "" {
      StripBlankTidy();
      CopyLead(LeadIn(spec), "");
      assert LeadIn(spec) + "" == LeadIn(spec);
    } else {
      StripLead(LeadIn(spec), Tidy(raw));
    }
  }

  lemma StripBlankTidy()
    ensures StripTag("") == ""
  {
  }

  lemma TidyStart(s: string)
    ensures Trimmed(Tidy(s))
  {
    TrimIsTrimmed(Collapse(s));
  }

  // ----- the reader's two drops -----

  lemma SquashOfTrimStart(s: string)
    ensures Squash(TrimStart(s)) == Squash(s)
  {
    TrimStartSplits(s);
    SquashSkips(s[..|s| - |TrimStart(s)|], TrimStart(s));
  }

  /** How many characters of a string its key keeps. */
  lemma ProseLetters(s: string)
    ensures KeyChars(ProseKey(s)) == Letters(s)
      - (if StartsWithWord(s, "verify that") then 10 else 0)
      - (if StartsWithWord(DropWord(s, "verify that"), "verify") then 6 else 0)
  {
    hide StartsWithWord, DropWord, Squash, Letters, KeyChars;
    WordSizes();
    var rest := DropWord(s, "verify that");
    DropWordLetters(s, "verify that");
    DropWordLetters(rest, "verify");
    KeyCounts(DropWord(rest, "verify"));
  }

  lemma LettersOfTidy(s: string)
    ensures Letters(Tidy(s)) == Letters(s)
  {
    hide Tidy, Squash, Letters;
    KeyCounts(s);
    KeyCounts(Tidy(s));
    SquashOfTidy(s);
  }

  lemma SpaceIsSpace()
    ensures IsSpace(' ') && AllSpace(" ")
  {
  }

  lemma StartStays(x: string)
    requires x == "" || !IsSpace(x[0])
    ensures TrimStart(x) == x
  {
  }

  /** A word in front of a string is what the reader drops. */
  lemma FirstWord(a: string, first: string, x: string)
    requires |a| == |first| && (forall i | 0 <= i < |a| :: AsciiLower(a[i]) == first[i]) && (x == "" || !IsSpace(x[0]))
    ensures StartsWithWord(a + " " + x, first) && DropWord(a + " " + x, first) == x
  {
    hide IsSpace, TrimStart;
    var s := a + " " + x;
    SpaceIsSpace();
    assert s[|first|..] == " " + x;
    TrimStartSkips(" ", x);
    StartStays(x);
    assert forall i | 0 <= i < |a| :: s[i] == a[i];
  }

  /** Two words are there if the first is in front and the second starts the rest. */
  lemma TwoWords(a: string, first: string, x: string, next: string)
    requires |a| == |first| && (forall i | 0 <= i < |a| :: AsciiLower(a[i]) == first[i])
    ensures StartsWithWord(a + " " + x, first + " " + next) <==> StartsWithWord(x, next)
    ensures StartsWithWord(x, next) ==> DropWord(a + " " + x, first + " " + next) == DropWord(x, next)
  {
    hide IsSpace, TrimStart;
    var s, word, n := a + " " + x, first + " " + next, |a| + 1;
    assert |x| > |next| ==> s[|word|] == x[|next|] && s[|word|..] == x[|next|..];
    assert forall i | 0 <= i < |x| :: s[n + i] == x[i];
    assert forall i | 0 <= i < |next| :: word[n + i] == next[i];
    assert forall i | n <= i < |word| :: word[i] == next[i - n];
    assert forall i | 0 <= i < |a| :: s[i] == a[i] && word[i] == first[i];
    assert s[|a|] == ' ' && word[|a|] == ' ' && AsciiLower(' ') == ' ';
    if StartsWithWord(s, word) {
      forall i | 0 <= i < |next| ensures AsciiLower(x[i]) == next[i] {
        assert AsciiLower(s[n + i]) == word[n + i];
      }
    }
  }

  // ----- the printed key -----

  /** What a caller can check of a spec without an id: its prose does not start with the words that
      the reader drops, or they are dropped from both wordings alike. */
  predicate KeyAgrees(spec: Spec) {
    var raw := Wording(spec);
    var tidy := Tidy(raw);
    && tidy != ""
    && if Context(spec) != "" then !StartsWithWord(tidy, "that") && !StartsWithWord(raw, "verify")
       else !StartsWithWord(raw, "verify that") && (StartsWithWord(raw, "verify") <==> StartsWithWord(tidy, "verify"))
  }

  lemma VerifyThatIsVerify(s: string)
    requires StartsWithWord(s, "verify that")
    ensures StartsWithWord(s, "verify")
  {
    var word := "verify that";
    assert word[6] == ' ' && AsciiLower(s[6]) == ' ';
    assert forall i | 0 <= i < 6 :: AsciiLower(s[i]) == word[i] && word[i] == "verify"[i];
  }

  /** After `Verify`: the key is the tidied wording's, unless that starts with `that`. */
  lemma KeyAfterVerify(x: string)
    requires x != "" && Trimmed(x)
    ensures !StartsWithWord(x, "that") ==> ProseKey("Verify" + " " + x) == Squash(x)
    ensures StartsWithWord(x, "that") ==> KeyChars(ProseKey("Verify" + " " + x)) < Letters(x)
  {
    hide StartsWithWord, Squash, Letters, KeyChars, IsSpace;
    var s := "Verify" + " " + x;
    VerifyMatches();
    FirstWord("Verify", "verify", x);
    TwoWords("Verify", "verify", x, "that");
    assert "verify" + " " + "that" == "verify that";
    if StartsWithWord(x, "that") {
      LettersOfLead("Verify", 6, x);
      ProseLetters(s);
    }
  }

  lemma VerifyMatches()
    ensures |"Verify"| == |"verify"| && forall i | 0 <= i < 6 :: AsciiLower("Verify"[i]) == "verify"[i]
    ensures |"Verify that"| == |"verify that"|
      && forall i | 0 <= i < 11 :: AsciiLower("Verify that"[i]) == "verify that"[i]
  {
  }

  lemma LettersOfLead(lead: string, n: nat, x: string)
    requires lead == "Verify" && n == 6
    ensures Letters(lead + " " + x) == n + Letters(x)
  {
    hide Letters, KeyChars;
    WordSizes();
    VerifyMatches();
    WordLetters(lead, "verify");
    LettersAppend(lead + " ", x);
    LettersAppend(lead, " ");
    BlankHasNoLetters(" ");
    NoKeyChars(" ");
  }

  lemma NoKeyChars(w: string)
    requires AllSpace(w)
    ensures Letters(w) == 0
  {
    BlankHasNoLetters(w);
  }

  /** After `Verify that`: what is left of the wording is read as it stands. */
  lemma KeyAfterVerifyThat(x: string)
    requires x != "" && Trimmed(x)
    ensures ProseKey("Verify that" + " " + x) == Squash(DropWord(x, "verify"))
  {
    hide StartsWithWord, Squash, IsSpace;
    VerifyMatches();
    FirstWord("Verify that", "verify that", x);
  }

  /** A wording that both readings take `verify` from gives the same key either way. */
  lemma BothDropVerify(raw: string)
    requires StartsWithWord(raw, "verify") && StartsWithWord(Tidy(raw), "verify")
    ensures Squash(DropWord(Tidy(raw), "verify")) == Squash(DropWord(raw, "verify"))
  {
    hide Tidy, Squash, IsSpace;
    var w, rest := raw[..6], raw[6..];
    assert raw == w + rest;
    NoSpaceInVerify(raw);
    TidyWord(w, rest);
    assert Tidy(raw) == w + " " + Tidy(rest);
    assert Tidy(raw)[6..] == " " + Tidy(rest);
    SpaceIsSpace();
    SquashOfTrimStart(Tidy(raw)[6..]);
    SquashSkips(" ", Tidy(rest));
    SquashOfTidy(rest);
    SquashOfTrimStart(rest);
  }

  lemma NoSpaceInVerify(s: string)
    requires StartsWithWord(s, "verify")
    ensures forall i | 0 <= i < 6 :: !IsSpace(s[i])
  {
    assert forall i | 0 <= i < 6 :: AsciiLower(s[i]) == "verify"[i];
  }

  /** A tidied wording that starts with `that` was not started with `verify`. */
  lemma ThatIsNotVerify(raw: string)
    requires StartsWithWord(Tidy(raw), "that")
    ensures !StartsWithWord(raw, "verify")
  {
    hide Tidy, IsSpace;
    if StartsWithWord(raw, "verify") {
      var w, rest := raw[..6], raw[6..];
      assert raw == w + rest;
      NoSpaceInVerify(raw);
      TidyWord(w, rest);
    }
  }

  lemma BlankKeys(raw: string)
    requires Tidy(raw) == ""
    ensures KeyChars(ProseKey(raw)) == 0
    ensures KeyChars(ProseKey("Verify")) == 6 && KeyChars(ProseKey("Verify that")) == 4
  {
    hide Tidy, Squash, Letters, KeyChars, IsSpace;
    LettersOfTidy(raw);
    SpaceIsSpace();
    NoKeyChars("");
    ProseLetters(raw);
    LeadKeys();
  }

  lemma LeadKeys()
    ensures KeyChars(ProseKey("Verify")) == 6 && KeyChars(ProseKey("Verify that")) == 4
  {
    hide Squash, Letters, KeyChars, IsSpace, DropWord;
    VerifyMatches();
    WordSizes();
    WordLetters("Verify", "verify");
    WordLetters("Verify that", "verify that");
    TooShort("Verify", "verify that");
    TooShort("Verify", "verify");
    TooShort("Verify that", "verify that");
    assert "Verify" + " " + "that" == "Verify that";
    assert !IsSpace("that"[0]) by { NotSpace(); }
    FirstWord("Verify", "verify", "that");
    ProseLetters("Verify");
    ProseLetters("Verify that");
  }

  lemma TooShort(s: string, word: string)
    requires |s| <= |word|
    ensures !StartsWithWord(s, word) && DropWord(s, word) == s
  {
  }

  lemma NotSpace()
    ensures !IsSpace('t')
  {
  }

  /** For a spec without an id: the key of its printed title is the key of its own wording, if and
      only if its prose does not start with the words that the reader drops. */
  lemma KeyReadsBackIff(spec: Spec)
    requires SplitSpecId(spec.title).id.None?
    ensures NormalizeTitle(CaseTitle(spec)) == OwnKey(spec) <==> KeyAgrees(spec)
  {
    hide SplitSpecId, CaseTitle, Wording, Context, Tidy, StartsWithWord, Squash, Letters, KeyChars, StripTag;
    hide DropWord, ProseKey;
    var raw := Wording(spec);
    var x := Tidy(raw);
    PrintedWording(spec);
    if x == "" {
      BlankKeys(raw);
    } else {
      TidyStart(raw);
      LettersOfTidy(raw);
      SquashOfTidy(raw);
      if Context(spec) != "" { AgreesAfterVerify(raw); } else { AgreesAfterVerifyThat(raw); }
    }
  }

  lemma AgreesAfterVerify(raw: string)
    requires Tidy(raw) != ""
    ensures ProseKey("Verify" + " " + Tidy(raw)) == ProseKey(raw)
       <==> !StartsWithWord(Tidy(raw), "that") && !StartsWithWord(raw, "verify")
  {
    hide Tidy, StartsWithWord, Squash, Letters, KeyChars, IsSpace;
    TidyStart(raw);
    LettersOfTidy(raw);
    SquashOfTidy(raw);
    KeyAfterVerify(Tidy(raw));
    ProseLetters(raw);
    KeyCounts(raw);
    if StartsWithWord(raw, "verify that") { VerifyThatIsVerify(raw); }
    if StartsWithWord(Tidy(raw), "that") { ThatIsNotVerify(raw); }
  }

  lemma AgreesAfterVerifyThat(raw: string)
    requires Tidy(raw) != ""
    ensures ProseKey("Verify that" + " " + Tidy(raw)) == ProseKey(raw)
       <==> !StartsWithWord(raw, "verify that")
            && (StartsWithWord(raw, "verify") <==> StartsWithWord(Tidy(raw), "verify"))
  {
    hide Tidy, StartsWithWord, Squash, Letters, KeyChars, IsSpace;
    var x := Tidy(raw);
    TidyStart(raw);
    LettersOfTidy(raw);
    SquashOfTidy(raw);
    KeyAfterVerifyThat(x);
    WordSizes();
    VerifyMatches();
    DropWordLetters(x, "verify");
    KeyCounts(DropWord(x, "verify"));
    ProseLetters(raw);
    if StartsWithWord(raw, "verify") && StartsWithWord(x, "verify") { BothDropVerify(raw); }
  }

  /** The printed title of such a spec is recognised on the next run. */
  lemma PrintedKeyIsCandidate(spec: Spec)
    requires SplitSpecId(spec.title).id.None? && KeyAgrees(spec)
    ensures NormalizeTitle(CaseTitle(spec)) in CandidateKeys(spec)
  {
    hide *;
    KeyReadsBackIff(spec);
    OwnKeyIsCandidate(spec);
  }

  // ----- the key of every printed title -----

  /** What stands before the first `[` that is never closed; all of it when there is none. */
  function Front(s: string): string {
    if s == "" || (s[0] == '[' && ']' !in s[1..]) then "" else [s[0]] + Front(s[1..])
  }

  lemma {:induction false} FrontAfter(a: string, b: string)
    requires '[' !in a
    ensures Front(a + b) == a + Front(b)
  {
    if a == "" {
      assert a + b == b;
    } else {
      assert (a + b)[0] == a[0] && (a + b)[1..] == a[1..] + b && a == [a[0]] + a[1..];
      FrontAfter(a[1..], b);
    }
  }

  lemma TagHereIff(s: string, id: string)
    requires s != "" && IsTagText(id)
    ensures TagHere(s + Bracketed(id)) <==> s[0] == '[' && ']' !in s[1..]
  {
    hide IsSpace;
    var tail := Bracketed(id);
    assert (s + tail)[0] == s[0] && (s + tail)[1..] == s[1..] + tail;
    BracketedReads(id);
    if ']' in s[1..] {
      ClosesInside(s[1..], tail);
    } else {
      var before := s[1..] + " [" + id;
      assert s[1..] + tail == before + "]" && ']' !in before;
      ClosesAfter(before, "]");
    }
  }

  /** With a bracket left open, stripping cuts there; white space in front of the bracket goes too. */
  lemma {:induction false} StripOpen(s: string, id: string) returns (w: string)
    requires LeavesOpen(s) && IsTagText(id)
    ensures Front(s) == StripTag(s + Bracketed(id)) + w && AllSpace(w)
  {
    hide StripTag, TagHere, Bracketed, IsTagText, LeavesOpen, Front, TrimStart, IsSpace, AllSpace;
    var tail := Bracketed(id);
    var t := TrimStart(s);
    var gap := OpenGap(s);
    GapWithTail(gap, t, tail);
    TagHereIff(t, id);
    SplitFirst(s, tail);
    StripStep(s + tail);
    if TagHere(t + tail) {
      FrontAfter(gap, t);
      FrontAtBracket(t);
      w := gap;
      assert gap + "" == gap && "" + gap == gap;
    } else {
      FirstStays(s);
      w := StripOpen(s[1..], id);
      assert [s[0]] + (StripTag(s[1..] + tail) + w) == [s[0]] + StripTag(s[1..] + tail) + w;
    }
  }

  /** White space in front, and something behind it that holds the open bracket. */
  lemma OpenGap(s: string) returns (gap: string)
    requires LeavesOpen(s)
    ensures s != "" && s == gap + TrimStart(s) && AllSpace(gap) && '[' !in gap
    ensures TrimStart(s) != "" && !IsSpace(TrimStart(s)[0])
  {
    hide TrimStart, IsSpace;
    TrimStartSplits(s);
    gap := s[..|s| - |TrimStart(s)|];
    BlankHasNoBracket(gap);
    OpenAppend(gap, TrimStart(s));
  }

  lemma GapWithTail(gap: string, t: string, tail: string)
    requires AllSpace(gap) && t != "" && !IsSpace(t[0])
    ensures TrimStart(gap + t + tail) == t + tail
  {
    hide TrimStart, IsSpace;
    assert gap + t + tail == gap + (t + tail) && (t + tail)[0] == t[0];
    TrimStartSkips(gap, t + tail);
    StartStays(t + tail);
  }

  lemma FrontAtBracket(t: string)
    requires t != "" && t[0] == '[' && ']' !in t[1..]
    ensures Front(t) == ""
  {
  }

  lemma FirstStays(s: string)
    requires LeavesOpen(s) && (TrimStart(s) != "" && TrimStart(s)[0] == '[' ==> ']' in TrimStart(s)[1..])
    ensures LeavesOpen(s[1..]) && Front(s) == [s[0]] + Front(s[1..])
  {
    if s[0] == '[' { assert TrimStart(s) == s; }
  }

  lemma TidyDropsTail(s: string, w: string)
    requires AllSpace(w)
    ensures Tidy(s + w) == Tidy(s)
  {
    hide Tidy, Trim, IsSpace, Collapse;
    if AllSpace(s) {
      TidyIsEmptyIff(s);
      TidyIsEmptyIff(s + w);
    } else {
      var a, r := CoreSplit(s);
      var m := Trim(s);
      assert s + w == a + (m + (r + w));
      TidySkips(a, m + (r + w));
      TidySkips(a, m + r);
      TidyCore(m, r);
      TidyCore(m, r + w);
    }
  }

  lemma TidyCore(m: string, w: string)
    requires m != "" && Trimmed(m) && AllSpace(w)
    ensures Tidy(m + w) == Collapse(m)
  {
    CollapseAppend(m, w);
    CollapseKeepsBlank(w);
    assert Collapse(m)[0] == m[0] && TrimStart(Collapse(m) + Collapse(w)) == Collapse(m) + Collapse(w) by {
      assert (Collapse(m) + Collapse(w))[0] == m[0];
    }
    TrimEndSkips(Collapse(m), Collapse(w));
    CollapseAppend(m, "");
    CollapseEnd(m);
  }

  lemma {:induction false} CollapseEnd(m: string)
    requires m != "" && !IsSpace(m[|m| - 1])
    ensures Collapse(m) != "" && !IsSpace(Collapse(m)[|Collapse(m)| - 1])
    decreases |m|
  {
    var init, last := m[..|m| - 1], [m[|m| - 1]];
    assert m == init + last;
    CollapseLast(init, last[0]);
  }

  lemma {:induction false} CollapseLast(init: string, c: char)
    requires !IsSpace(c)
    ensures Collapse(init + [c]) != "" && Collapse(init + [c])[|Collapse(init + [c])| - 1] == c
    decreases |init|
  {
    hide TrimStart;
    var s := init + [c];
    if init == "" {
      assert s == [c] && s[1..] == "";
    } else if IsSpace(s[0]) {
      TrimStartAppend(s, "");
      TrimStartSplits(s);
      var t := TrimStart(s);
      assert t == t[..|t| - 1] + [c];
      CollapseLast(t[..|t| - 1], c);
    } else {
      assert s[1..] == init[1..] + [c];
      CollapseLast(init[1..], c);
    }
  }

  /** What the printed title says behind its lead-in, as far as the reader can tell it from a tag. */
  function Said(spec: Spec): string {
    if SplitSpecId(spec.title).id.Some? then Front(SplitSpecId(spec.title).body) else Wording(spec)
  }

  /** What is left of it when the reader has dropped its words. */
  function Kept(spec: Spec): string {
    var said := Tidy(Said(spec));
    if SplitSpecId(spec.title).id.Some? || Context(spec) == "" then
      if said == "" then "that" else DropWord(said, "verify")
    else if said == "" then "verify"
    else if StartsWithWord(said, "that") then DropWord(DropWord(said, "that"), "verify")
    else said
  }

  lemma OpenTitleStripped(spec: Spec)
    requires SplitSpecId(spec.title).id.Some? && LeavesOpen(SplitSpecId(spec.title).body)
    ensures var said := Tidy(Said(spec));
      StripTag(CaseTitle(spec)) == if said == "" then "Verify that" else "Verify that" + " " + said
  {
    hide SplitSpecId, Tidy, StripTag, Front, LeavesOpen, IsTagText;
    var parts := SplitSpecId(spec.title);
    var lead, id := "Verify that ", parts.id.value;
    SpecIdIsTagText(spec.title);
    OpenAppend(lead, parts.body);
    var title := lead + parts.body + Bracketed(id);
    assert lead + parts.body + " [" + id + "]" == title;
    StripTidy(title);
    var w := StripOpen(lead + parts.body, id);
    TidyDropsTail(StripTag(title), w);
    FrontAfter(lead, parts.body);
    assert lead + Front(parts.body) == "Verify that" + " " + Front(parts.body);
    TidyLead("Verify that", Front(parts.body));
  }

  /** The key of a printed title, told from the spec alone. */
  lemma PrintedKey(spec: Spec)
    requires SplitSpecId(spec.title).id.Some? ==> LeavesOpen(SplitSpecId(spec.title).body)
    ensures NormalizeTitle(CaseTitle(spec)) == Squash(Kept(spec))
  {
    hide SplitSpecId, CaseTitle, Said, Wording, Context, Tidy, StartsWithWord, Squash, StripTag, DropWord, LeavesOpen;
    if SplitSpecId(spec.title).id.Some? { OpenTitleStripped(spec); } else { SaidIsWording(spec); PrintedWording(spec); }
    var said := Tidy(Said(spec));
    TidyStart(Said(spec));
    LeadsRead();
    if said != "" {
      KeyAfterVerifyThat(said);
      KeyAfterVerify(said);
      if StartsWithWord(said, "that") { ThatAfterVerify(said); }
    }
  }

  lemma SaidIsWording(spec: Spec)
    requires SplitSpecId(spec.title).id.None?
    ensures Said(spec) == Wording(spec)
  {
  }

  lemma LeadsRead()
    ensures ProseKey("Verify") == Squash("verify") && ProseKey("Verify that") == Squash("that")
  {
    hide Squash, IsSpace;
    VerifyMatches();
    assert !IsSpace("that"[0]) by { NotSpace(); }
    assert "Verify" + " " + "that" == "Verify that";
    FirstWord("Verify", "verify", "that");
    TooShort("Verify", "verify that");
    TooShort("Verify", "verify");
    TooShort("Verify that", "verify that");
    SquashFolds();
  }

  lemma SquashFolds()
    ensures Squash("Verify") == Squash("verify")
  {
    hide Spaced, Trim;
    assert "Verify"[1..] == "erify" && "verify"[1..] == "erify";
  }

  lemma ThatAfterVerify(x: string)
    requires StartsWithWord(x, "that")
    ensures ProseKey("Verify" + " " + x) == Squash(DropWord(DropWord(x, "that"), "verify"))
  {
    hide StartsWithWord, DropWord, Squash;
    VerifyMatches();
    TwoWords("Verify", "verify", x, "that");
    assert "verify" + " " + "that" == "verify that";
  }
}
