/** e2e/scripts/push-to-tesbo.ts, lines 9 to 17: when a re-run proposes nothing. */
module PushSettles {
  import opened Options
  import opened Text
  import opened SpecTitles
  import opened TitleTags
  import opened TitleKeys
  import opened TitleRecognition
  import opened SuitePush
  import opened PushRuns

  // ----- how many runs create anything -----

  lemma {:induction false} DistinctAreFew(filed: seq<nat>, n: nat)
    requires forall i | 0 <= i < |filed| :: filed[i] < n
    requires forall i, j | 0 <= i < j < |filed| :: filed[i] != filed[j]
    ensures |filed| <= n
  {
    if filed != [] {
      assert filed[0] < n;
      if n - 1 in filed {
        var p :| 0 <= p < |filed| && filed[p] == n - 1;
        DistinctAreFew(filed[..p] + filed[p + 1..], n - 1);
      } else {
        DistinctAreFew(filed, n - 1);
      }
    }
  }

  /** Each run that stores a case adds to what is filed. */
  lemma {:induction false} CreatingRunsFile(env: Env, specs: seq<Spec>, server: Server, events: seq<Event>)
    requires Considerate(env, specs, server, events)
    ensures var past := Lived(env, specs, server, events);
      past.creating <= |past.filed| && forall i | 0 <= i < |past.filed| :: past.filed[i] < |specs|
  {
    hide Filed, After, Starts;
    if events != [] {
      var n := |events| - 1;
      Earlier(env, specs, server, events);
      CreatingRunsFile(env, specs, server, events[..n]);
      var past := Lived(env, specs, server, events[..n]);
      match events[n] {
        case Elsewhere(s) =>
        case Pushed(dryRun, answers) => FiledAreStored(env.(dryRun := dryRun), past.server, specs, answers, |specs|);
      }
    }
  }

  /** However often the script is run, and whatever fails, no more runs create something than there
      are specs. */
  lemma CreatingRunsAreFew(env: Env, specs: seq<Spec>, server: Server, events: seq<Event>)
    requires Considerate(env, specs, server, events) && forall k | 0 <= k < |specs| :: SelfRecognised(specs[k])
    ensures Lived(env, specs, server, events).creating <= |specs|
    ensures |Lived(env, specs, server, events).filed| <= |specs|
  {
    hide Lived, SelfRecognised;
    var filed := Lived(env, specs, server, events).filed;
    CreatingRunsFile(env, specs, server, events);
    forall i, j | 0 <= i < j < |filed| ensures filed[i] != filed[j] {
      StoredAtMostOnce(env, specs, server, events, filed[i]);
    }
    DistinctAreFew(filed, |specs|);
  }

  // ----- quiet runs -----

  /** A run that neither created nor failed anything, and was not cut short. */
  predicate Quiet(st: State) {
    !st.aborted && st.created == 0 && st.failed == 0
  }

  lemma {:induction false} NothingDue(seen: Index, specs: seq<Spec>, n: nat)
    requires n <= |specs|
    ensures Due(seen, specs, n) == [] ==> Taken(seen, specs, n).0 == seen
    ensures Due(seen, specs, n) == [] <==> forall i | 0 <= i < n :: AlreadyOnStage(seen, specs[i])
  {
    hide AlreadyOnStage, Mark;
    if n > 0 { NothingDue(seen, specs, n - 1); }
  }

  lemma {:induction false} NothingHappens(env: Env, server: Server, specs: seq<Spec>, answers: seq<Answer>, n: nat)
    requires n <= |specs| == |answers| && forall i | 0 <= i < n :: AlreadyOnStage(IndexOf(Visible(server)), specs[i])
    ensures After(env, server, specs, answers, n) == Start(env, server).(skipped := n)
  {
    hide Step, AlreadyOnStage, TreeOf, IndexOf, Visible;
    if n > 0 {
      NothingHappens(env, server, specs, answers, n - 1);
      StepEffect(env, After(env, server, specs, answers, n - 1), specs[n - 1], answers[n - 1]);
    }
  }

  /** A run proposes nothing exactly when every spec is recognised by a title the project holds; it
      then leaves the project as it was. */
  lemma QuietIff(env: Env, server: Server, specs: seq<Spec>, answers: seq<Answer>)
    requires |specs| == |answers| && Starts(server, specs)
    ensures Quiet(After(env, server, specs, answers, |specs|))
      <==> forall i | 0 <= i < |specs| :: Recognised(server.cases, specs[i])
    ensures Quiet(After(env, server, specs, answers, |specs|)) ==>
      After(env, server, specs, answers, |specs|).server == server
  {
    hide AlreadyOnStage, Recognised, IndexOf, Visible, Taken, After;
    var seen := IndexOf(Visible(server));
    forall i | 0 <= i < |specs| ensures AlreadyOnStage(seen, specs[i]) <==> Recognised(server.cases, specs[i]) {
      IndexRecognises(server.cases, specs[i]);
    }
    var st := After(env, server, specs, answers, |specs|);
    NothingDue(seen, specs, |specs|);
    if Due(seen, specs, |specs|) == [] {
      NothingHappens(env, server, specs, answers, |specs|);
    } else if !st.aborted {
      PlanIsDue(env, server, specs, answers, |specs|);
      RunIsAccountedFor(env, server, specs, answers, |specs|);
    }
  }

  // ----- the run after a clean one -----

  /** A real run in which every call succeeded. */
  predicate Clean(env: Env, st: State) {
    !env.dryRun && !st.aborted && st.failed == 0
  }

  lemma {:induction false} CleanRunFilesDue(env: Env, server: Server, specs: seq<Spec>, answers: seq<Answer>, n: nat)
    requires n <= |specs| == |answers| && Clean(env, After(env, server, specs, answers, n))
    ensures Filed(env, server, specs, answers, n) == Due(IndexOf(Visible(server)), specs, n)
  {
    hide AlreadyOnStage, IndexOf, Visible, TreeOf, Step, Mark;
    if n > 0 {
      var st := After(env, server, specs, answers, n - 1);
      if st.aborted { StaysAborted(env, st, specs[n - 1], answers[n - 1]); }
      StepEffect(env, st, specs[n - 1], answers[n - 1]);
      CleanRunFilesDue(env, server, specs, answers, n - 1);
      PlanIsDue(env, server, specs, answers, n - 1);
      StoresWhenDue(env, st, specs[n - 1], answers[n - 1]);
    }
  }

  /** So a clean run that stores nothing had nothing to propose. */
  lemma CleanAndIdleIsQuiet(env: Env, server: Server, specs: seq<Spec>, answers: seq<Answer>)
    requires |specs| == |answers| && Clean(env, After(env, server, specs, answers, |specs|))
    requires Filed(env, server, specs, answers, |specs|) == []
    ensures Quiet(After(env, server, specs, answers, |specs|))
  {
    hide After, Filed, Due, IndexOf, Visible;
    CleanRunFilesDue(env, server, specs, answers, |specs|);
    PlanIsDue(env, server, specs, answers, |specs|);
    RunIsAccountedFor(env, server, specs, answers, |specs|);
  }

  /** The event is a run that starts in a project like this and in which every call succeeds. */
  predicate CleanRun(env: Env, specs: seq<Spec>, server: Server, event: Event) {
    && event.Pushed? && !event.dryRun && |event.answers| == |specs| && Starts(server, specs)
    && Clean(env.(dryRun := false), After(env.(dryRun := false), server, specs, event.answers, |specs|))
  }

  predicate QuietRun(env: Env, specs: seq<Spec>, server: Server, event: Event) {
    && CleanRun(env, specs, server, event)
    && Quiet(After(env.(dryRun := false), server, specs, event.answers, |specs|))
  }

  /** How many of the events are clean runs, and how many of those propose nothing. */
  function CleanRuns(env: Env, specs: seq<Spec>, server: Server, events: seq<Event>): (nat, nat)
    requires forall e | e in events && e.Pushed? :: |e.answers| == |specs|
  {
    if events == [] then (0, 0)
    else
      var n := |events| - 1;
      var (clean, quiet) := CleanRuns(env, specs, server, events[..n]);
      var before := Lived(env, specs, server, events[..n]).server;
      (if CleanRun(env, specs, before, events[n]) then clean + 1 else clean,
       if QuietRun(env, specs, before, events[n]) then quiet + 1 else quiet)
  }

  lemma {:induction false} CleanRunsCreateOrAreQuiet(env: Env, specs: seq<Spec>, server: Server, events: seq<Event>)
    requires forall e | e in events && e.Pushed? :: |e.answers| == |specs|
    ensures CleanRuns(env, specs, server, events).0
         <= CleanRuns(env, specs, server, events).1 + Lived(env, specs, server, events).creating
  {
    hide After, Filed, Starts, Clean, Quiet;
    if events != [] {
      var n := |events| - 1;
      CleanRunsCreateOrAreQuiet(env, specs, server, events[..n]);
      var before := Lived(env, specs, server, events[..n]).server;
      if CleanRun(env, specs, before, events[n]) {
        var answers := events[n].answers;
        if Filed(env.(dryRun := false), before, specs, answers, |specs|) == [] {
          CleanAndIdleIsQuiet(env.(dryRun := false), before, specs, answers);
        }
      }
    }
  }

  /** Repeated runs settle: over any sequence of runs and considerate changes, all but as many clean
      runs as there are specs propose nothing. */
  lemma CleanRunsFallQuiet(env: Env, specs: seq<Spec>, server: Server, events: seq<Event>)
    requires Considerate(env, specs, server, events) && forall k | 0 <= k < |specs| :: SelfRecognised(specs[k])
    ensures CleanRuns(env, specs, server, events).1 >= CleanRuns(env, specs, server, events).0 - |specs|
  {
    hide Lived, CleanRuns, SelfRecognised;
    CleanRunsCreateOrAreQuiet(env, specs, server, events);
    CreatingRunsAreFew(env, specs, server, events);
  }

  lemma StoresWhenDue(env: Env, st: State, spec: Spec, answer: Answer)
    requires !st.aborted && !env.dryRun && !Step(env, st, spec, answer).aborted
      && Step(env, st, spec, answer).failed == st.failed
    ensures Stores(env, st, spec, answer) <==> !AlreadyOnStage(st.seen, spec)
  {
    hide AlreadyOnStage, SuiteFor, Mark, CaseTitle;
    StepEffect(env, st, spec, answer);
    SuiteOnlySuites(env, st, spec, answer);
  }

  /** Settled: a title of the project recognises the spec, or the title of a spec that is due does. */
  predicate WillBeRecognised(server: Server, specs: seq<Spec>, i: nat)
    requires i < |specs|
  {
    DueInRange(IndexOf(Visible(server)), specs, |specs|);
    var due := Due(IndexOf(Visible(server)), specs, |specs|);
    Recognised(server.cases, specs[i]) || exists k | 0 <= k < |due| :: RecognisedBy(CaseTitle(specs[due[k]]), specs[i])
  }

  lemma RecognisedAfter(server: Server, specs: seq<Spec>, cases: seq<Case>, i: nat)
    requires i < |specs|
    requires var due := Due(IndexOf(Visible(server)), specs, |specs|);
      && |cases| == |server.cases| + |due| && server.cases <= cases
      && forall k | 0 <= k < |due| :: due[k] < |specs| && cases[|server.cases| + k].title == CaseTitle(specs[due[k]])
    ensures Recognised(cases, specs[i]) <==> WillBeRecognised(server, specs, i)
  {
    hide Due, RecognisedBy, CaseTitle, IndexOf, Visible;
    var n, due := |server.cases|, Due(IndexOf(Visible(server)), specs, |specs|);
    DueInRange(IndexOf(Visible(server)), specs, |specs|);
    if Recognised(cases, specs[i]) {
      var j :| 0 <= j < |cases| && RecognisedBy(cases[j].title, specs[i]);
      if j >= n {
        assert RecognisedBy(CaseTitle(specs[due[j - n]]), specs[i]);
      } else {
        assert cases[j] == server.cases[j];
      }
    }
    if Recognised(server.cases, specs[i]) {
      var j :| 0 <= j < n && RecognisedBy(server.cases[j].title, specs[i]);
      assert cases[j] == server.cases[j];
    } else if WillBeRecognised(server, specs, i) {
      var k :| 0 <= k < |due| && RecognisedBy(CaseTitle(specs[due[k]]), specs[i]);
      assert RecognisedBy(cases[n + k].title, specs[i]);
    }
  }

  // ----- the next index sees what a run stored -----

  predicate Listed(st: State) {
    && (forall key | key in st.tree :: Some(st.tree[key]) in Scopes(st.server.suites))
    && (forall key | key in st.roots :: Some(st.roots[key]) in Scopes(st.server.suites))
    && (forall i | 0 <= i < |st.server.cases| :: st.server.cases[i].suite in Scopes(st.server.suites))
  }

  lemma MoreScopes(before: seq<Suite>, after: seq<Suite>)
    requires before <= after
    ensures forall scope | scope in Scopes(before) :: scope in Scopes(after)
  {
    forall scope | scope in Scopes(before) ensures scope in Scopes(after) {
      var i :| 0 <= i < |Scopes(before)| && Scopes(before)[i] == scope;
      if i < |before| { assert Scopes(after)[i] == scope; } else { assert Scopes(after)[|after|] == scope; }
    }
  }

  lemma EnsureKeepsListed(env: Env, st: State, name: string, parent: Option<string>, reply: Reply)
    requires Listed(st) && !env.dryRun
    ensures var (after, id) := EnsureSuite(env, st, name, parent, reply);
      Listed(after) && (id.Some? ==> Some(id.value) in Scopes(after.server.suites))
  {
    hide SuiteKey, Scopes;
    var (after, id) := EnsureSuite(env, st, name, parent, reply);
    MoreScopes(st.server.suites, after.server.suites);
    if !reply.Refused? {
      var suites := st.server.suites + [Suite(reply.id, name, parent)];
      assert Scopes(suites)[|st.server.suites|] == Some(reply.id);
      assert Some(reply.id) in Scopes(suites);
    }
  }

  lemma SuiteForKeepsListed(env: Env, st: State, spec: Spec, answer: Answer)
    requires Listed(st) && !env.dryRun
    ensures var (after, id) := SuiteFor(env, st, spec, answer);
      Listed(after) && (id.Some? ==> Some(id.value) in Scopes(after.server.suites))
  {
    hide EnsureSuite, ProjectName, Scopes;
    var project := ProjectName(spec);
    EnsureKeepsListed(env, st, project, None, answer.root);
    var (rooted, rootId) :=
      if project in st.roots then (st, Some(st.roots[project])) else EnsureSuite(env, st, project, None, answer.root);
    if rootId.Some? {
      EnsureKeepsListed(env, rooted.(roots := rooted.roots[project := rootId.value]), env.nameFor(spec.file), rootId,
        answer.child);
    }
  }

  lemma StepKeepsListed(env: Env, st: State, spec: Spec, answer: Answer)
    requires Listed(st) && !env.dryRun
    ensures Listed(Step(env, st, spec, answer))
  {
    hide AlreadyOnStage, SuiteFor, FileCase, Scopes, Listed;
    SuiteForKeepsListed(env, st, spec, answer);
    var (ready, suiteId) := SuiteFor(env, st, spec, answer);
    if suiteId.Some? {
      FileKeepsListed(env, ready, spec, suiteId.value, answer.testCase);
    }
    SkipKeepsListed(st);
  }

  lemma SkipKeepsListed(st: State)
    requires Listed(st)
    ensures Listed(st.(skipped := st.skipped + 1))
  {
  }

  lemma FileKeepsListed(env: Env, st: State, spec: Spec, suiteId: string, reply: Reply)
    requires Listed(st) && !env.dryRun && Some(suiteId) in Scopes(st.server.suites)
    ensures Listed(FileCase(env, st, spec, suiteId, reply))
  {
    hide Mark, CaseTitle, Scopes;
  }

  lemma {:induction false} TreeIsListed(env: Env, suites: seq<Suite>)
    ensures forall key | key in TreeOf(env, suites) :: Some(TreeOf(env, suites)[key]) in Scopes(suites)
  {
    hide SuiteKey;
    if suites != [] {
      var n := |suites| - 1;
      TreeIsListed(env, suites[..n]);
      MoreScopes(suites[..n], suites);
      assert Scopes(suites)[n] == Some(suites[n].id);
    }
  }

  lemma {:induction false} RunKeepsListed(env: Env, server: Server, specs: seq<Spec>, answers: seq<Answer>, n: nat)
    requires n <= |specs| == |answers| && !env.dryRun && Visible(server) == All(server.cases)
    ensures Listed(After(env, server, specs, answers, n))
  {
    hide Step, TreeOf, IndexOf, Scopes;
    if n == 0 {
      TreeIsListed(env, server.suites);
      assert forall i | 0 <= i < |server.cases| :: server.cases[i] in All(server.cases);
    } else {
      RunKeepsListed(env, server, specs, answers, n - 1);
      StepKeepsListed(env, After(env, server, specs, answers, n - 1), specs[n - 1], answers[n - 1]);
    }
  }

  /** A run leaves no case where the next index would not find it: the next run can only be refused for
      a suite that has outgrown its page. */
  lemma NextRunStarts(env: Env, server: Server, specs: seq<Spec>, answers: seq<Answer>)
    requires |specs| == |answers| && Starts(server, specs)
    ensures Starts(After(env, server, specs, answers, |specs|).server, specs)
       <==> FitsOnPages(After(env, server, specs, answers, |specs|).server)
  {
    hide After, FitsOnPages, HasCollision, Scopes;
    if env.dryRun {
      RunIsAccountedFor(env, server, specs, answers, |specs|);
    } else {
      RunKeepsListed(env, server, specs, answers, |specs|);
    }
  }

  /** The run after a clean one proposes nothing, if and only if every spec is recognised by a title
      that was there or by a title that the clean run was due to print. */
  lemma SettlesIff(env: Env, server: Server, specs: seq<Spec>, answers: seq<Answer>, again: Env, replies: seq<Answer>)
    requires |specs| == |answers| == |replies| && Starts(server, specs)
    requires Clean(env, After(env, server, specs, answers, |specs|))
    requires FitsOnPages(After(env, server, specs, answers, |specs|).server)
    ensures Quiet(After(again, After(env, server, specs, answers, |specs|).server, specs, replies, |specs|))
       <==> forall i | 0 <= i < |specs| :: WillBeRecognised(server, specs, i)
  {
    hide After, Filed, Due, RecognisedBy, CaseTitle, IndexOf, Visible, Recognised, FitsOnPages, WillBeRecognised;
    hide Starts;
    var after := After(env, server, specs, answers, |specs|).server;
    NextRunStarts(env, server, specs, answers);
    QuietIff(again, after, specs, replies);
    FiledAreStored(env, server, specs, answers, |specs|);
    CleanRunFilesDue(env, server, specs, answers, |specs|);
    DueInRange(IndexOf(Visible(server)), specs, |specs|);
    forall i | 0 <= i < |specs| ensures Recognised(after.cases, specs[i]) <==> WillBeRecognised(server, specs, i) {
      RecognisedAfter(server, specs, after.cases, i);
    }
  }

  // ----- specs that do not get in each other's way -----

  /** The marks of one spec take the other for granted: they share an id or a candidate key. */
  predicate Clash(p: Spec, q: Spec) {
    AlreadyOnStage(Mark(Index({}, {}), p), q)
  }

  /** They do exactly when both carry one id or some wording is a candidate for both. */
  lemma ClashIff(p: Spec, q: Spec)
    ensures Clash(p, q)
       <==> (SplitSpecId(p.title).id.Some? && SplitSpecId(p.title).id == SplitSpecId(q.title).id)
            || exists key :: key in CandidateKeys(p) && key in CandidateKeys(q)
  {
    hide SplitSpecId, CandidateKeys;
  }

  predicate Distinct(specs: seq<Spec>) {
    forall i, j | 0 <= i < j < |specs| :: !Clash(specs[i], specs[j])
  }

  lemma MarkedBy(seen: Index, p: Spec, q: Spec)
    ensures AlreadyOnStage(Mark(seen, p), q) <==> AlreadyOnStage(seen, q) || Clash(p, q)
  {
    hide SplitSpecId, CandidateKeys;
  }

  /** A spec that is skipped was there before the run, or clashes with one that is due earlier. */
  lemma {:induction false} WhySkipped(seen: Index, specs: seq<Spec>, n: nat, spec: Spec)
    requires n <= |specs| && AlreadyOnStage(Taken(seen, specs, n).0, spec)
    ensures AlreadyOnStage(seen, spec) || exists j | 0 <= j < n :: Clash(specs[j], spec)
  {
    hide AlreadyOnStage, Mark, Clash;
    if n > 0 {
      var taken := Taken(seen, specs, n - 1).0;
      if AlreadyOnStage(taken, spec) {
        WhySkipped(seen, specs, n - 1, spec);
      } else {
        MarkedBy(taken, specs[n - 1], spec);
      }
    }
  }

  lemma {:induction false} DueUnlessSeen(seen: Index, specs: seq<Spec>, n: nat, i: nat)
    requires i < n <= |specs| && Distinct(specs) && !AlreadyOnStage(seen, specs[i])
    ensures i in Due(seen, specs, n)
  {
    hide AlreadyOnStage, Mark, Clash;
    if n == i + 1 {
      if AlreadyOnStage(Taken(seen, specs, i).0, specs[i]) { WhySkipped(seen, specs, i, specs[i]); }
      assert i in Due(seen, specs, i) + [i];
    } else {
      DueUnlessSeen(seen, specs, n - 1, i);
    }
  }

  /** With no two specs sharing an id or a candidate key, and every spec recognising its own printed
      title, the run after a clean one proposes nothing. */
  lemma DistinctSpecsSettle(env: Env, server: Server, specs: seq<Spec>, answers: seq<Answer>, again: Env,
                            replies: seq<Answer>)
    requires |specs| == |answers| == |replies| && Starts(server, specs)
    requires Clean(env, After(env, server, specs, answers, |specs|))
    requires FitsOnPages(After(env, server, specs, answers, |specs|).server)
    requires Distinct(specs) && forall i | 0 <= i < |specs| :: SelfRecognised(specs[i])
    ensures Quiet(After(again, After(env, server, specs, answers, |specs|).server, specs, replies, |specs|))
  {
    hide After, Due, RecognisedBy, CaseTitle, IndexOf, Visible, Recognised, FitsOnPages, AlreadyOnStage, Clash;
    SettlesIff(env, server, specs, answers, again, replies);
    var seen := IndexOf(Visible(server));
    forall i | 0 <= i < |specs| ensures WillBeRecognised(server, specs, i) {
      IndexRecognises(server.cases, specs[i]);
      if !Recognised(server.cases, specs[i]) { DueUnlessSeen(seen, specs, |specs|, i); }
    }
  }
}
