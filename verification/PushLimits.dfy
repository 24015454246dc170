/** e2e/scripts/push-to-tesbo.ts, where the header's promise ends: specs that the script stores again. */
module PushLimits {
  import opened Options
  import opened Text
  import opened SpecTitles
  import opened TitleTags
  import opened TitleKeys
  import opened TitleRecognition
  import opened TitleShapes
  import opened SuitePush
  import opened PushRuns
  import opened PushSettles

  // ----- a spec that does not recognise its own title -----

  function AllStored(id: string): Answer {
    Answer(Stored("r"), Stored("s"), Stored(id))
  }

  lemma {:induction false} FewRows(cases: seq<Case>, scope: Option<string>)
    ensures |RowsIn(cases, scope)| <= |cases|
  {
    if cases != [] { FewRows(cases[1..], scope); }
  }

  lemma SmallProjectStarts(server: Server, specs: seq<Spec>)
    requires |server.cases| < PAGE_CEILING
    ensures FitsOnPages(server)
  {
    forall scope | scope in Scopes(server.suites) ensures |RowsIn(server.cases, scope)| < PAGE_CEILING {
      FewRows(server.cases, scope);
    }
  }

  /** A run over one spec that nothing recognises stores it, if the project says yes. */
  lemma StoresUnrecognised(env: Env, spec: Spec, server: Server, answer: Answer)
    requires !env.dryRun && answer.root.Stored? && answer.child.Stored? && answer.testCase.Stored?
    requires Starts(server, [spec]) && !Recognised(server.cases, spec)
    ensures Filed(env, server, [spec], [answer], 1) == [0]
  {
    hide AlreadyOnStage, SuiteFor, Recognised, Visible, IndexOf, TreeOf, FitsOnPages, HasCollision, Step;
    IndexRecognises(server.cases, spec);
    var st := Start(env, server);
    SuiteOnlySuites(env, st, spec, answer);
    assert After(env, server, [spec], [answer], 0) == st;
    assert Filed(env, server, [spec], [answer], 0) == [];
  }

  /** In an empty project, two runs store such a spec twice, with no failure in between. */
  lemma UnrecognisedIsStoredAgain(env: Env, spec: Spec)
    requires !SelfRecognised(spec)
    ensures var events := [Pushed(false, [AllStored("c")]), Pushed(false, [AllStored("d")])];
      Considerate(env, [spec], Server([], []), events) && Lived(env, [spec], Server([], []), events).filed == [0, 0]
  {
    hide RecognisedBy, After, Filed, FitsOnPages, Visible, CaseTitle;
    var e, server := env.(dryRun := false), Server([], []);
    var first, second := Pushed(false, [AllStored("c")]), Pushed(false, [AllStored("d")]);
    var specs, events := [spec], [first, second];
    SmallProjectStarts(server, specs);
    EmptyIsVisible();
    StoresUnrecognised(e, spec, server, AllStored("c"));
    var after := After(e, server, specs, [AllStored("c")], 1).server;
    FiledAreStored(e, server, specs, [AllStored("c")], 1);
    assert after.cases[|server.cases| + 0].title == CaseTitle(specs[Filed(e, server, specs, [AllStored("c")], 1)[0]]);
    assert !Recognised(after.cases, spec);
    NextRunStarts(e, server, specs, [AllStored("c")]);
    SmallProjectStarts(after, specs);
    StoresUnrecognised(e, spec, after, AllStored("d"));
    assert events[..1] == [first] && [first][..0] == [];
    assert Lived(env, specs, server, []) == Past(server, [], 0);
    assert Lived(env, specs, server, [first]).filed == [0] && Lived(env, specs, server, [first]).server == after;
  }

  lemma EmptyIsVisible()
    ensures Visible(Server([], [])) == All([])
  {
  }

  lemma StoredOnceAlways(env: Env, spec: Spec)
    requires SelfRecognised(spec)
    ensures forall server, events | Considerate(env, [spec], server, events) ::
      OnceAtMost(Lived(env, [spec], server, events).filed, 0)
  {
    hide SelfRecognised, Lived, Recognised;
    forall server, events | Considerate(env, [spec], server, events)
      ensures OnceAtMost(Lived(env, [spec], server, events).filed, 0)
    {
      StoredAtMostOnce(env, [spec], server, events, 0);
    }
  }

  /** A spec is stored at most once over every sequence of runs, if and only if the script recognises
      the title it prints for it. */
  lemma StoredOnceIff(env: Env, spec: Spec)
    ensures SelfRecognised(spec)
       <==> forall server, events | Considerate(env, [spec], server, events) ::
              OnceAtMost(Lived(env, [spec], server, events).filed, 0)
  {
    hide RecognisedBy, SelfRecognised, Lived, Considerate;
    if SelfRecognised(spec) {
      StoredOnceAlways(env, spec);
    } else {
      UnrecognisedIsStoredAgain(env, spec);
      var events := [Pushed(false, [AllStored("c")]), Pushed(false, [AllStored("d")])];
      assert Considerate(env, [spec], Server([], []), events);
      var filed := Lived(env, [spec], Server([], []), events).filed;
      assert filed[0] == 0 && filed[1] == 0 && !OnceAtMost(filed, 0);
    }
  }

  // ----- two such specs -----

  const DOUBLED := Spec("api/a.spec.ts", "verify that x", [])
  const BRACKET := Spec("api/a.spec.ts", "AB-1 a [b", [])

  /** Prose that starts with the words that the reader drops: the title is "Verify that verify that x". */
  lemma DoubledLeadIsNotRecognised()
    ensures !SelfRecognised(DOUBLED)
  {
    hide SplitSpecId, ProseKey, Squash, StripTag, KeyAgrees, SelfRecognised;
    var title := DOUBLED.title;
    NoIdInLowerCase(title);
    assert title[0] == 'v';
    assert Join(DOUBLED.suitePath, " ") == "";
    TrimmedIsFixed("");
    NoTagToStrip(title);
    assert StartsWithWord(title, "verify that") by { assert title[|"verify that"|] == ' '; }
    DisagreesWhenDoubled(DOUBLED);
    SelfRecognisedIff(DOUBLED);
  }

  lemma NoIdInLowerCase(title: string)
    requires title != "" && !IsUpper(title[0])
    ensures SplitSpecId(title) == Parts(None, title)
  {
    var id := title[..IdRun(title)];
    assert UpperRun(id) == 0;
  }

  lemma DisagreesWhenDoubled(spec: Spec)
    requires Context(spec) == "" && StartsWithWord(Wording(spec), "verify that")
    ensures !KeyAgrees(spec)
  {
    hide StartsWithWord, Wording, Tidy, Context;
  }

  /** Prose that leaves a bracket open: the title is "Verify that a [b [AB-1]", and its tag reads
      "b [AB-1". */
  lemma OpenBracketIsNotRecognised()
    ensures !SelfRecognised(BRACKET)
  {
    hide *;
    BracketParts();
    BracketStaysOpen();
    BracketKept();
    BracketKeys();
    KeyOfA();
    SelfRecognisedExactly(BRACKET);
  }

  lemma KeyOfA()
    ensures Squash("a") == "a" && "a" != "a b"
  {
    hide Squash;
    KeyOfLetter('a');
    assert "a" == ['a'];
  }

  lemma BracketStaysOpen()
    ensures LeavesOpen("a [b")
  {
    assert "a [b"[1..] == " [b" && " [b"[1..] == "[b" && "[b"[1..] == "b";
  }

  lemma BracketParts()
    ensures SplitSpecId(BRACKET.title) == Parts(Some("AB-1"), "a [b")
  {
    hide SplitSpecId;
    assert BRACKET.title == "AB-1" + (" " + "a [b");
    assert IdStart("AB-1", 2);
    SplitsInto(BRACKET.title, "AB-1", " ", "a [b");
  }

  lemma BracketKept()
    ensures Kept(BRACKET) == "a"
  {
    hide SplitSpecId, Tidy;
    BracketParts();
    FrontAfter("a ", "[b");
    assert "a " + "[b" == "a [b" && Front("[b") == "" && "a " + "" == "a ";
    TidyDropsTail("a", " ");
    assert "a" + " " == "a ";
    TidyWord("a", "");
    TidyIsEmptyIff("");
    assert "a" + "" == "a";
  }

  lemma BracketKeys()
    ensures CandidateKeys(BRACKET) == ["a b"]
  {
    hide SplitSpecId, StripTag, Squash;
    BracketParts();
    assert Join(BRACKET.suitePath, " ") == "";
    NoClosingToStrip("a [b");
    NoWordToDrop("a [b");
    KeyOfBracket();
  }

  lemma {:induction false} NoClosingToStrip(s: string)
    requires ']' !in s
    ensures StripTag(s) == s && !ClosesAtEnd(s)
  {
    if s != "" {
      assert s == [s[0]] + s[1..];
      NoClosingToStrip(s[1..]);
      TrimStartSplits(s);
      var t := TrimStart(s);
      assert ']' !in t;
      NoClosing(t);
    }
  }

  lemma {:induction false} NoClosing(s: string)
    requires ']' !in s
    ensures !ClosesAtEnd(s) && !TagHere(s)
  {
    if s != "" {
      assert s == [s[0]] + s[1..];
      NoClosing(s[1..]);
    }
  }

  lemma KeyOfBracket()
    ensures Squash("a [b") == "a b"
  {
    assert "a [b"[1..] == " [b" && " [b"[1..] == "[b" && "[b"[1..] == "b";
    KeyOfLetter('b');
    assert "b" == ['b'];
    assert Lower("[b") == "[b" && Lower(" [b") == " [b";
    assert Lower("a [b") == "a [b";
    assert SkipGap("b") == "b" && SkipGap("[b") == "b" && Spaced(" [b") == " b";
    assert Spaced("a [b") == "a b";
    TrimmedIsFixed("a b");
  }

  // ----- two specs of one wording -----

  const FIRST := Spec("api/a.spec.ts", "x", ["A"])
  const SECOND := Spec("api/b.spec.ts", "x", ["B"])

  lemma NoTagToStrip(s: string)
    requires '[' !in s && (s == "" || !IsSpace(s[|s| - 1]))
    ensures StripTag(s) == s
  {
    hide StripTag;
    CopyLead(s, "");
    StripNothing();
    assert s + "" == s;
  }

  lemma KeyOfLetter(c: char)
    requires IsLower(c)
    ensures Spaced([c]) == [c] && Lower([c]) == [c] && Squash([c]) == [c]
  {
    assert [c][1..] == "";
    TrimmedIsFixed([c]);
  }

  lemma KeyOfPair(c: char)
    requires IsUpper(c)
    ensures Squash([c] + " x") == [AsciiLower(c)] + " x"
  {
    var s, low := [c] + " x", [AsciiLower(c)] + " x";
    assert s[1..] == " x" && " x"[1..] == "x" && low[1..] == " x";
    KeyOfLetter('x');
    assert "x" == ['x'];
    assert Lower(" x") == " x";
    assert Lower(s) == low;
    assert SkipGap("x") == "x" && Spaced(" x") == " x";
    assert Spaced(low) == low;
    TrimmedIsFixed(low);
  }

  lemma NoWordToDrop(s: string)
    requires |s| <= 6
    ensures ProseKey(s) == Squash(s) && !StartsWithWord(s, "verify") && !StartsWithWord(s, "verify that")
  {
  }

  lemma PlainTitle(spec: Spec)
    requires spec.title == "x"
    ensures SplitSpecId(spec.title) == Parts(None, "x")
  {
    assert UpperRun("") == 0 && UpperRun("x") == 0;
    assert IdRun("x") <= 1;
    var id := "x"[..IdRun("x")];
    assert id == "" || id == "x";
  }

  lemma KeysOfPlain(spec: Spec, c: char)
    requires spec.title == "x" && spec.suitePath == [[c]] && IsUpper(c)
    ensures CandidateKeys(spec) == ["x", [AsciiLower(c)] + " x"]
    ensures Wording(spec) == [c] + " x" && Context(spec) == [c]
  {
    hide StripTag, ProseKey, SplitSpecId, Squash;
    PlainTitle(spec);
    assert Join(spec.suitePath, " ") == [c];
    TrimmedIsFixed([c]);
    assert [c] + " " + "x" == [c] + " x";
    NoTagToStrip("x");
    NoTagToStrip([c] + " x");
    NoWordToDrop("x");
    NoWordToDrop([c] + " x");
    KeyOfLetter('x');
    assert "x" == ['x'];
    KeyOfPair(c);
  }

  lemma PlainRecognises(spec: Spec, c: char)
    requires spec.title == "x" && spec.suitePath == [[c]] && IsUpper(c)
    ensures NormalizeTitle(CaseTitle(spec)) == [AsciiLower(c)] + " x" && SelfRecognised(spec)
  {
    hide CaseTitle, CandidateKeys, NormalizeTitle, Wording, Context, SplitSpecId, Tidy, StartsWithWord, StripTag;
    hide ProseKey, Squash;
    PlainTitle(spec);
    KeysOfPlain(spec, c);
    NoWordToDrop([c] + " x");
    KeyOfPair(c);
    var raw := [c] + " x";
    TidyOfPlain(raw);
    KeyReadsBackIff(spec);
    PrintedKeyIsCandidate(spec);
  }

  lemma TidyOfPlain(raw: string)
    requires |raw| == 3 && !IsSpace(raw[0]) && raw[1] == ' ' && raw[2] == 'x'
    ensures Tidy(raw) != "" && !StartsWithWord(Tidy(raw), "that")
  {
    hide Tidy;
    TidyIsEmptyIff(raw);
    TidyWord([raw[0]], raw[1..]);
    assert [raw[0]] + raw[1..] == raw;
    assert raw[1..] == " " + "x";
    TidySkips(" ", "x");
    TidyWord("x", "");
    assert "x" + "" == "x";
    TidyIsEmptyIff("");
  }

  /** A run in which the project says yes to everything is clean. */
  lemma {:induction false} StoredRunIsClean(env: Env, server: Server, specs: seq<Spec>, answers: seq<Answer>, n: nat)
    requires n <= |specs| == |answers| && !env.dryRun
    requires forall i | 0 <= i < |answers| ::
      answers[i].root.Stored? && answers[i].child.Stored? && answers[i].testCase.Stored?
    ensures Clean(env, After(env, server, specs, answers, n))
  {
    hide Step, AlreadyOnStage, TreeOf, IndexOf, Visible;
    if n > 0 {
      StoredRunIsClean(env, server, specs, answers, n - 1);
      StepEffect(env, After(env, server, specs, answers, n - 1), specs[n - 1], answers[n - 1]);
    }
  }

  lemma PairsDiffer()
    ensures !HasCollision([FIRST, SECOND])
  {
    assert PairOf(FIRST)[4] == 'a' && PairOf(SECOND)[4] == 'b';
    var specs := [FIRST, SECOND];
    assert specs[0] == FIRST && specs[1] == SECOND;
  }

  lemma OnlyFirstIsDue()
    ensures Due(IndexOf(Visible(Server([], []))), [FIRST, SECOND], 2) == [0]
  {
    hide CandidateKeys, SplitSpecId, NormalizeTitle, TagOf;
    KeysOfPlain(FIRST, 'A');
    KeysOfPlain(SECOND, 'B');
    PlainTitle(FIRST);
    var seen := IndexOf(Visible(Server([], [])));
    EmptyIsVisible();
    assert seen == Index({}, {});
    var specs := [FIRST, SECOND];
    assert CandidateKeys(SECOND)[0] == "x" && CandidateKeys(FIRST)[0] == "x";
    assert "x" in Mark(seen, FIRST).byText;
    assert Taken(seen, specs, 0) == (seen, []);
    assert specs[0] == FIRST && specs[1] == SECOND && !AlreadyOnStage(seen, FIRST) && [] + [0] == [0];
    assert Taken(seen, specs, 1) == (Mark(seen, FIRST), [0]);
    assert Taken(seen, specs, 2) == (Mark(seen, FIRST), [0]);
  }

  lemma FirstDoesNotCover()
    ensures !RecognisedBy(CaseTitle(FIRST), SECOND)
  {
    hide CaseTitle, CandidateKeys, NormalizeTitle, SplitSpecId;
    PlainTitle(SECOND);
    KeysOfPlain(SECOND, 'B');
    PlainRecognises(FIRST, 'A');
    assert ([AsciiLower('A')] + " x")[0] == 'a' && CandidateKeys(SECOND)[0][0] == 'x'
      && CandidateKeys(SECOND)[1][0] == 'b';
  }

  lemma FirstRun(env: Env)
    requires !env.dryRun
    ensures var specs, server, answers := [FIRST, SECOND], Server([], []), [AllStored("c"), AllStored("d")];
      var st := After(env, server, specs, answers, 2);
      Starts(server, specs) && Clean(env, st) && st.created == 1 && st.skipped == 1 && FitsOnPages(st.server)
        && Starts(st.server, specs)
  {
    hide After, Filed, CaseTitle, Visible, FitsOnPages, HasCollision, IndexOf, Due;
    var specs, server, answers := [FIRST, SECOND], Server([], []), [AllStored("c"), AllStored("d")];
    SmallProjectStarts(server, specs);
    EmptyIsVisible();
    PairsDiffer();
    OnlyFirstIsDue();
    StoredRunIsClean(env, server, specs, answers, 2);
    PlanIsDue(env, server, specs, answers, 2);
    RunIsAccountedFor(env, server, specs, answers, 2);
    FiledAreStored(env, server, specs, answers, 2);
    CleanRunFilesDue(env, server, specs, answers, 2);
    SmallProjectStarts(After(env, server, specs, answers, 2).server, specs);
    NextRunStarts(env, server, specs, answers);
  }

  /** The header promises that a re-run creates nothing (push-to-tesbo.ts, lines 9 to 17). It does not always hold: two
      specs without ids that share their wording under different describe blocks count as one in the
      first run, because both candidate keys are marked, but only one of the keys is stored. The second
      run, with nothing failed and nothing added to the suite, creates the other. */
  lemma SecondRunCreatesAgain(env: Env, again: Env)
    requires !env.dryRun
    ensures var specs, server, answers := [FIRST, SECOND], Server([], []), [AllStored("c"), AllStored("d")];
      var st := After(env, server, specs, answers, 2);
      && Starts(server, specs) && SelfRecognised(FIRST) && SelfRecognised(SECOND)
      && Clean(env, st) && st.created == 1 && st.skipped == 1
      && Starts(st.server, specs) && !Quiet(After(again, st.server, specs, answers, 2))
  {
    hide After, RecognisedBy, CaseTitle, Visible, FitsOnPages, HasCollision, IndexOf, Due, Starts, Clean;
    hide SelfRecognised, Quiet;
    var specs, server, answers := [FIRST, SECOND], Server([], []), [AllStored("c"), AllStored("d")];
    PlainRecognises(FIRST, 'A');
    PlainRecognises(SECOND, 'B');
    FirstRun(env);
    OnlyFirstIsDue();
    FirstDoesNotCover();
    SettlesIff(env, server, specs, answers, again, answers);
    assert !WillBeRecognised(server, specs, 1);
  }
}
