/** e2e/scripts/push-to-tesbo.ts, what the script promises: over any sequence of runs a spec is stored
    at most once, and repeated runs settle. */
module PushRuns {
  import opened Options
  import opened Text
  import opened SpecTitles
  import opened TitleTags
  import opened TitleKeys
  import opened TitleRecognition
  import opened SuitePush

  // ----- one step -----

  /** Finding or making a suite touches no case, no mark and no count. */
  predicate OnlySuites(before: State, after: State) {
    && after.server.cases == before.server.cases && before.server.suites <= after.server.suites
    && after.seen == before.seen && after.plan == before.plan
    && after.created == before.created && after.skipped == before.skipped && after.failed == before.failed
  }

  lemma EnsureOnlySuites(env: Env, st: State, name: string, parent: Option<string>, reply: Reply)
    ensures var (after, id) := EnsureSuite(env, st, name, parent, reply);
      && OnlySuites(st, after) && (after.aborted <==> st.aborted || id.None?)
      && (env.dryRun ==> id.Some? && after.server == st.server)
      && (reply.Stored? ==> id.Some?)
  {
    hide SuiteKey;
  }

  lemma SuiteOnlySuites(env: Env, st: State, spec: Spec, answer: Answer)
    ensures var (after, id) := SuiteFor(env, st, spec, answer);
      && OnlySuites(st, after) && (after.aborted <==> st.aborted || id.None?)
      && (env.dryRun ==> id.Some? && after.server == st.server)
      && (answer.root.Stored? && answer.child.Stored? ==> id.Some?)
  {
    hide EnsureSuite, ProjectName;
    var project := ProjectName(spec);
    EnsureOnlySuites(env, st, project, None, answer.root);
    var (rooted, rootId) :=
      if project in st.roots then (st, Some(st.roots[project])) else EnsureSuite(env, st, project, None, answer.root);
    if rootId.Some? {
      EnsureOnlySuites(env, rooted.(roots := rooted.roots[project := rootId.value]), env.nameFor(spec.file), rootId,
        answer.child);
    }
  }

  /** Does this step store a case? */
  predicate Stores(env: Env, st: State, spec: Spec, answer: Answer) {
    !env.dryRun && !answer.testCase.Refused? && !st.aborted && !AlreadyOnStage(st.seen, spec)
    && SuiteFor(env, st, spec, answer).1.Some?
  }

  /** A step in full, except for where the suites are. */
  lemma StepEffect(env: Env, st: State, spec: Spec, answer: Answer)
    requires !st.aborted
    ensures var next := Step(env, st, spec, answer);
      && st.server.suites <= next.server.suites
      && (AlreadyOnStage(st.seen, spec) ==> next == st.(skipped := st.skipped + 1))
      && (!AlreadyOnStage(st.seen, spec) && next.aborted ==> OnlySuites(st, next) && !env.dryRun)
      && (!AlreadyOnStage(st.seen, spec) && !next.aborted ==>
            && next.seen == Mark(st.seen, spec) && next.plan == st.plan + [spec] && next.skipped == st.skipped
            && next.created + next.failed == st.created + st.failed + 1 && next.failed >= st.failed
            && (env.dryRun ==> next.server == st.server && next.failed == st.failed)
            && (!env.dryRun ==> (next.failed == st.failed <==> answer.testCase.Stored?)))
      && (answer.root.Stored? && answer.child.Stored? ==> !next.aborted)
  {
    hide AlreadyOnStage, SuiteFor, Mark, CaseTitle;
    SuiteOnlySuites(env, st, spec, answer);
  }

  lemma StepCases(env: Env, st: State, spec: Spec, answer: Answer)
    ensures var next := Step(env, st, spec, answer);
      if Stores(env, st, spec, answer)
      then exists c: Case :: next.server.cases == st.server.cases + [c] && c.title == CaseTitle(spec)
      else next.server.cases == st.server.cases
  {
    hide AlreadyOnStage, SuiteFor, Mark, CaseTitle;
    if !st.aborted && !AlreadyOnStage(st.seen, spec) {
      SuiteOnlySuites(env, st, spec, answer);
      var (ready, suiteId) := SuiteFor(env, st, spec, answer);
      if Stores(env, st, spec, answer) {
        var c := Case(answer.testCase.id, CaseTitle(spec), suiteId);
        assert Step(env, st, spec, answer).server.cases == st.server.cases + [c];
      }
    }
  }

  // ----- the accounts of a run -----

  /** Every spec of a run is created, skipped or failed, and exactly one of them; a run that throws
      has accounted for the specs before. A dry run never throws, fails nothing and leaves the project
      as it was. */
  lemma {:induction false} RunIsAccountedFor(env: Env, server: Server, specs: seq<Spec>, answers: seq<Answer>, n: nat)
    requires n <= |specs| == |answers|
    ensures var st := After(env, server, specs, answers, n);
      && |st.plan| == st.created + st.failed
      && (if st.aborted then st.created + st.skipped + st.failed < n else st.created + st.skipped + st.failed == n)
      && (env.dryRun ==> !st.aborted && st.failed == 0 && st.server == server)
  {
    hide Step, AlreadyOnStage, TreeOf, Visible, IndexOf;
    if n > 0 {
      RunIsAccountedFor(env, server, specs, answers, n - 1);
      var st := After(env, server, specs, answers, n - 1);
      if st.aborted {
        StaysAborted(env, st, specs[n - 1], answers[n - 1]);
      } else {
        StepEffect(env, st, specs[n - 1], answers[n - 1]);
      }
    }
  }

  // ----- what a run will do, known before it starts -----

  /** What is taken after the first `n` specs, and which of them the run will try to create. */
  function Taken(seen: Index, specs: seq<Spec>, n: nat): (Index, seq<nat>)
    requires n <= |specs|
  {
    if n == 0 then (seen, [])
    else
      var (taken, due) := Taken(seen, specs, n - 1);
      if AlreadyOnStage(taken, specs[n - 1]) then (taken, due) else (Mark(taken, specs[n - 1]), due + [n - 1])
  }

  function Due(seen: Index, specs: seq<Spec>, n: nat): (due: seq<nat>)
    requires n <= |specs|
  {
    Taken(seen, specs, n).1
  }

  lemma {:induction false} DueInRange(seen: Index, specs: seq<Spec>, n: nat)
    requires n <= |specs|
    ensures forall i | 0 <= i < |Due(seen, specs, n)| :: Due(seen, specs, n)[i] < n
    ensures forall i, j | 0 <= i < j < |Due(seen, specs, n)| :: Due(seen, specs, n)[i] < Due(seen, specs, n)[j]
  {
    hide AlreadyOnStage, Mark;
    if n > 0 {
      DueInRange(seen, specs, n - 1);
      var due := Due(seen, specs, n - 1);
      assert Due(seen, specs, n) == due || Due(seen, specs, n) == due + [n - 1];
    }
  }

  function Pick(specs: seq<Spec>, indices: seq<nat>): seq<Spec>
    requires forall i | 0 <= i < |indices| :: indices[i] < |specs|
  {
    seq(|indices|, i requires 0 <= i < |indices| => specs[indices[i]])
  }

  /** A run that is not cut short works through exactly the specs that are due, whatever the project
      answers to it and whether it is a dry run or not: the list a dry run shows is the list that a
      real run goes through. */
  lemma {:induction false} PlanIsDue(env: Env, server: Server, specs: seq<Spec>, answers: seq<Answer>, n: nat)
    requires n <= |specs| == |answers| && !After(env, server, specs, answers, n).aborted
    ensures var st := After(env, server, specs, answers, n);
      && (forall i | 0 <= i < |Due(IndexOf(Visible(server)), specs, n)| ::
            Due(IndexOf(Visible(server)), specs, n)[i] < |specs|)
      && st.plan == Pick(specs, Due(IndexOf(Visible(server)), specs, n))
      && st.seen == Taken(IndexOf(Visible(server)), specs, n).0
  {
    hide Step, AlreadyOnStage, TreeOf, Visible, IndexOf, Mark;
    var seen := IndexOf(Visible(server));
    DueInRange(seen, specs, n);
    if n > 0 {
      var st := After(env, server, specs, answers, n - 1);
      assert !st.aborted by { if st.aborted { StaysAborted(env, st, specs[n - 1], answers[n - 1]); } }
      PlanIsDue(env, server, specs, answers, n - 1);
      StepEffect(env, st, specs[n - 1], answers[n - 1]);
      DueInRange(seen, specs, n - 1);
    }
  }

  // ----- recognising a spec -----

  /** A stored title on which alreadyOnStage would recognise the spec. */
  predicate RecognisedBy(title: string, spec: Spec) {
    || (SplitSpecId(spec.title).id.Some? && TagOf(title) == SplitSpecId(spec.title).id)
    || NormalizeTitle(title) in CandidateKeys(spec)
  }

  predicate Recognised(cases: seq<Case>, spec: Spec) {
    exists i | 0 <= i < |cases| :: RecognisedBy(cases[i].title, spec)
  }

  /** The title that the script prints for a spec is one it recognises the spec by. */
  predicate SelfRecognised(spec: Spec) {
    RecognisedBy(CaseTitle(spec), spec)
  }

  lemma IndexRecognises(cases: seq<Case>, spec: Spec)
    ensures AlreadyOnStage(IndexOf(All(cases)), spec) <==> Recognised(cases, spec)
  {
    hide SplitSpecId, TagOf, NormalizeTitle, CandidateKeys;
    if Recognised(cases, spec) {
      var i :| 0 <= i < |cases| && RecognisedBy(cases[i].title, spec);
      assert cases[i] in All(cases);
    }
    if AlreadyOnStage(IndexOf(All(cases)), spec) {
      var id := SplitSpecId(spec.title).id;
      if id.Some? && id.value in Tags(All(cases)) {
        var c :| c in All(cases) && TagOf(c.title) == id;
        var i :| 0 <= i < |cases| && cases[i] == c;
        assert RecognisedBy(cases[i].title, spec);
      } else {
        var key :| key in CandidateKeys(spec) && key in Keys(All(cases));
        var c :| c in All(cases) && NormalizeTitle(c.title) == key;
        var i :| 0 <= i < |cases| && cases[i] == c;
        assert RecognisedBy(cases[i].title, spec);
      }
    }
  }

  /** What a caller can check of a spec: with an id, its prose leaves no bracket open; without one,
      its wording does not start with the words that the reader drops. */
  lemma SelfRecognisedWhen(spec: Spec)
    ensures SplitSpecId(spec.title).id.Some? && !LeavesOpen(SplitSpecId(spec.title).body) ==> SelfRecognised(spec)
    ensures SplitSpecId(spec.title).id.None? && KeyAgrees(spec) ==> SelfRecognised(spec)
  {
    hide SplitSpecId, LeavesOpen, KeyAgrees, CaseTitle, TagOf, NormalizeTitle, CandidateKeys;
    if SplitSpecId(spec.title).id.Some? {
      TagReadsBackIff(spec);
    } else if KeyAgrees(spec) {
      PrintedKeyIsCandidate(spec);
    }
  }

  /** Exactly when a printed title recognises its own spec: the tag is read back, or else what the
      reader keeps of the title has one of the spec's candidate keys. */
  lemma SelfRecognisedExactly(spec: Spec)
    ensures var Parts(id, body) := SplitSpecId(spec.title);
      SelfRecognised(spec) <==> (id.Some? && !LeavesOpen(body)) || Squash(Kept(spec)) in CandidateKeys(spec)
  {
    hide SplitSpecId, LeavesOpen, CaseTitle, TagOf, NormalizeTitle, CandidateKeys, Kept, Squash;
    var parts := SplitSpecId(spec.title);
    if parts.id.Some? { TagReadsBackIff(spec); }
    if parts.id.Some? ==> LeavesOpen(parts.body) { PrintedKey(spec); }
  }

  /** Without a describe path there is one candidate key, and the condition is exact. */
  lemma SelfRecognisedIff(spec: Spec)
    requires SplitSpecId(spec.title).id.None? && Join(spec.suitePath, " ") == ""
    ensures SelfRecognised(spec) <==> KeyAgrees(spec)
  {
    hide SplitSpecId, KeyAgrees, CaseTitle, TagOf, NormalizeTitle, Join;
    KeyReadsBackIff(spec);
    OnlyOwnKey(spec);
  }

  lemma OnlyOwnKey(spec: Spec)
    requires Join(spec.suitePath, " ") == ""
    ensures CandidateKeys(spec) == [OwnKey(spec)]
  {
    hide SplitSpecId, Join, ProseKey, StripTag;
    ContextIsBlankIff(spec);
  }

  // ----- many runs -----

  /** Between two runs the project's people do as they like, and the script is run or dry-run. */
  datatype Event = Elsewhere(server: Server) | Pushed(dryRun: bool, answers: seq<Answer>)

  /** The project after some events; which specs had a case stored, in order; how many runs stored any. */
  datatype Past = Past(server: Server, filed: seq<nat>, creating: nat)

  /** The positions of the specs that have a case stored in the first `n` steps of a run. */
  function Filed(env: Env, server: Server, specs: seq<Spec>, answers: seq<Answer>, n: nat): seq<nat>
    requires n <= |specs| == |answers|
  {
    if n == 0 then []
    else
      var filed := Filed(env, server, specs, answers, n - 1);
      if Stores(env, After(env, server, specs, answers, n - 1), specs[n - 1], answers[n - 1]) then filed + [n - 1]
        else filed
  }

  /** The script starts on the specs: what Push.Run checks. */
  predicate Starts(server: Server, specs: seq<Spec>) {
    !HasCollision(specs) && FitsOnPages(server) && Visible(server) == All(server.cases)
  }

  function Lived(env: Env, specs: seq<Spec>, server: Server, events: seq<Event>): Past
    requires forall e | e in events && e.Pushed? :: |e.answers| == |specs|
  {
    if events == [] then Past(server, [], 0)
    else Live(env, specs, Lived(env, specs, server, events[..|events| - 1]), events[|events| - 1])
  }

  function Live(env: Env, specs: seq<Spec>, past: Past, event: Event): Past
    requires event.Pushed? ==> |event.answers| == |specs|
  {
    match event
    case Elsewhere(server) => past.(server := server)
    case Pushed(dryRun, answers) =>
      if !Starts(past.server, specs) then past
      else
        var filed := Filed(env.(dryRun := dryRun), past.server, specs, answers, |specs|);
        Past(After(env.(dryRun := dryRun), past.server, specs, answers, |specs|).server, past.filed + filed,
             past.creating + if filed != [] then 1 else 0)
  }

  /** Nobody else makes a spec unrecognisable: cases may be added, moved, reworded or retired as long
      as a spec that some title recognises is still recognised by one. */
  predicate KeepsRecognised(specs: seq<Spec>, before: Server, after: Server) {
    forall k | 0 <= k < |specs| :: Recognised(before.cases, specs[k]) ==> Recognised(after.cases, specs[k])
  }

  predicate Considerate(env: Env, specs: seq<Spec>, server: Server, events: seq<Event>) {
    && (forall e | e in events && e.Pushed? :: |e.answers| == |specs|)
    && forall i | 0 <= i < |events| && events[i].Elsewhere? ::
         KeepsRecognised(specs, Lived(env, specs, server, events[..i]).server, events[i].server)
  }

  /** Nothing is lost by a run, and what it stores is stored under its printed title, once, after
      everything in front of it, for specs that nothing recognised before. */
  lemma {:induction false} FiledAreStored(env: Env, server: Server, specs: seq<Spec>, answers: seq<Answer>, n: nat)
    requires n <= |specs| == |answers|
    ensures var cases, filed := After(env, server, specs, answers, n).server.cases,
      Filed(env, server, specs, answers, n);
      && |cases| == |server.cases| + |filed| && server.cases <= cases
      && (forall i | 0 <= i < |filed| :: filed[i] < n && cases[|server.cases| + i].title == CaseTitle(specs[filed[i]]))
      && (forall i, j | 0 <= i < j < |filed| :: filed[i] < filed[j])
  {
    hide Step, Stores, CaseTitle, Visible, IndexOf, TreeOf;
    if n > 0 {
      FiledAreStored(env, server, specs, answers, n - 1);
      StepCases(env, After(env, server, specs, answers, n - 1), specs[n - 1], answers[n - 1]);
    }
  }

  lemma {:induction false} MarksGrow(env: Env, server: Server, specs: seq<Spec>, answers: seq<Answer>, n: nat,
                                     spec: Spec)
    requires n <= |specs| == |answers| && AlreadyOnStage(IndexOf(Visible(server)), spec)
    ensures AlreadyOnStage(After(env, server, specs, answers, n).seen, spec)
  {
    hide Step, CandidateKeys, SplitSpecId, IndexOf, Visible, TreeOf;
    if n > 0 {
      MarksGrow(env, server, specs, answers, n - 1, spec);
      var st := After(env, server, specs, answers, n - 1);
      if st.aborted {
        StaysAborted(env, st, specs[n - 1], answers[n - 1]);
      } else {
        StepEffect(env, st, specs[n - 1], answers[n - 1]);
      }
    }
  }

  lemma {:induction false} RecognisedIsNotFiled(env: Env, server: Server, specs: seq<Spec>, answers: seq<Answer>,
                                                n: nat, k: nat)
    requires n <= |specs| == |answers| && k < |specs|
    requires Starts(server, specs) && Recognised(server.cases, specs[k])
    ensures k !in Filed(env, server, specs, answers, n)
  {
    hide AlreadyOnStage, After, Recognised, SuiteFor, IndexOf, HasCollision, FitsOnPages;
    if n > 0 {
      RecognisedIsNotFiled(env, server, specs, answers, n - 1, k);
      if n - 1 == k {
        IndexRecognises(server.cases, specs[k]);
        MarksGrow(env, server, specs, answers, n - 1, specs[k]);
      }
    }
  }

  lemma RunKeepsRecognised(env: Env, server: Server, specs: seq<Spec>, answers: seq<Answer>, k: nat)
    requires |specs| == |answers| && k < |specs|
    ensures var after := After(env, server, specs, answers, |specs|).server.cases;
      && (Recognised(server.cases, specs[k]) ==> Recognised(after, specs[k]))
      && (k in Filed(env, server, specs, answers, |specs|) && SelfRecognised(specs[k]) ==> Recognised(after, specs[k]))
  {
    hide RecognisedBy, After, CaseTitle;
    FiledAreStored(env, server, specs, answers, |specs|);
    var after, filed := After(env, server, specs, answers, |specs|).server.cases,
      Filed(env, server, specs, answers, |specs|);
    if Recognised(server.cases, specs[k]) {
      var i :| 0 <= i < |server.cases| && RecognisedBy(server.cases[i].title, specs[k]);
      assert after[i] == server.cases[i];
    }
    if k in filed && SelfRecognised(specs[k]) {
      var i :| 0 <= i < |filed| && filed[i] == k;
      assert RecognisedBy(after[|server.cases| + i].title, specs[k]);
    }
  }

  predicate OnceAtMost(filed: seq<nat>, k: nat) {
    forall i, j | 0 <= i < j < |filed| :: filed[i] == k ==> filed[j] != k
  }

  /** Over any sequence of runs and of other people's changes, a spec that recognises its own printed
      title has at most one case stored. Replies may be lost and runs may be cut short at any call. */
  lemma {:induction false} StoredAtMostOnce(env: Env, specs: seq<Spec>, server: Server, events: seq<Event>, k: nat)
    requires k < |specs| && SelfRecognised(specs[k]) && Considerate(env, specs, server, events)
    ensures var past := Lived(env, specs, server, events);
      OnceAtMost(past.filed, k) && (k in past.filed ==> Recognised(past.server.cases, specs[k]))
  {
    hide Recognised, RecognisedBy, SelfRecognised, Filed, After, Starts;
    if events != [] {
      var n := |events| - 1;
      Earlier(env, specs, server, events);
      StoredAtMostOnce(env, specs, server, events[..n], k);
      var past := Lived(env, specs, server, events[..n]);
      match events[n] {
        case Elsewhere(s) => assert KeepsRecognised(specs, past.server, s);
        case Pushed(dryRun, answers) =>
          if Starts(past.server, specs) {
            var e := env.(dryRun := dryRun);
            RunKeepsRecognised(e, past.server, specs, answers, k);
            FiledAreStored(e, past.server, specs, answers, |specs|);
            if Recognised(past.server.cases, specs[k]) {
              RecognisedIsNotFiled(e, past.server, specs, answers, |specs|, k);
            }
          }
      }
    }
  }

  lemma Earlier(env: Env, specs: seq<Spec>, server: Server, events: seq<Event>)
    requires events != [] && Considerate(env, specs, server, events)
    ensures Considerate(env, specs, server, events[..|events| - 1])
  {
    var n := |events| - 1;
    assert forall i | 0 <= i < n :: events[..n][..i] == events[..i] && events[..n][i] == events[i];
  }
}
