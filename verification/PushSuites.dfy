/** e2e/scripts/push-to-tesbo.ts, the suite tree: a run never makes a second suite beside one of the
    same name, and files each case under the suite of its spec file. */
module PushSuites {
  import opened Options
  import opened Text
  import opened SpecTitles
  import opened SuitePush
  import opened PushRuns

  /** The ids that the project gives out: not empty, no colon, not the word that stands for no parent. */
  predicate IsId(id: string) {
    id != "" && ':' !in id && id != "root"
  }

  predicate ProperSuites(suites: seq<Suite>) {
    forall i | 0 <= i < |suites| :: IsId(suites[i].id) && (suites[i].parent.Some? ==> IsId(suites[i].parent.value))
  }

  predicate ProperReply(reply: Reply) {
    !reply.Refused? ==> IsId(reply.id)
  }

  predicate ProperAnswers(answers: seq<Answer>) {
    forall i | 0 <= i < |answers| :: ProperReply(answers[i].root) && ProperReply(answers[i].child)
  }

  predicate Same(env: Env, suite: Suite, name: string, parent: Option<string>) {
    suite.parent == parent && env.fold(Trim(suite.name)) == env.fold(Trim(name))
  }

  predicate KeyOf(env: Env, suite: Suite, key: string) {
    SuiteKey(env, suite.name, suite.parent) == key
  }

  lemma ColonSplits(a: string, x: string, b: string, y: string)
    requires a + "::" + x == b + "::" + y && ':' !in a && ':' !in b
    ensures a == b && x == y
  {
    var s, t := a + "::" + x, b + "::" + y;
    assert s[|a|] == ':' && t[|b|] == ':';
    assert s[..|a|] == a && t[..|b|] == b;
    assert s[|a| + 2..] == x && t[|b| + 2..] == y;
  }

  /** The key of a suite says what it is called and where it is. */
  lemma KeyIsExact(env: Env, suite: Suite, name: string, parent: Option<string>)
    requires suite.parent.Some? ==> IsId(suite.parent.value)
    requires parent.Some? ==> IsId(parent.value)
    ensures KeyOf(env, suite, SuiteKey(env, name, parent)) <==> Same(env, suite, name, parent)
  {
    if KeyOf(env, suite, SuiteKey(env, name, parent)) {
      ColonSplits(if suite.parent.Some? then suite.parent.value else "root", env.fold(Trim(suite.name)),
                  if parent.Some? then parent.value else "root", env.fold(Trim(name)));
    }
  }

  // ----- the tree mirrors the project -----

  /** Every suite is in the tree under its key, and the tree holds nothing else. */
  predicate TreeMatches(env: Env, suites: seq<Suite>, tree: map<string, string>) {
    && ProperSuites(suites)
    && (forall i | 0 <= i < |suites| :: SuiteKey(env, suites[i].name, suites[i].parent) in tree)
    && (forall key | key in tree :: tree[key] != "" && InTree(env, suites, key, tree[key]))
  }

  /** The roots that a run remembers are those of the tree. */
  predicate Mirrors(env: Env, st: State) {
    && TreeMatches(env, st.server.suites, st.tree)
    && (forall name | name in st.roots ::
          SuiteKey(env, name, None) in st.tree && st.roots[name] == st.tree[SuiteKey(env, name, None)])
  }

  predicate InTree(env: Env, suites: seq<Suite>, key: string, id: string) {
    exists i | 0 <= i < |suites| :: suites[i].id == id && KeyOf(env, suites[i], key)
  }

  lemma StillInTree(env: Env, suites: seq<Suite>, more: seq<Suite>, key: string, id: string)
    requires InTree(env, suites, key, id) && suites <= more
    ensures InTree(env, more, key, id)
  {
    var i :| 0 <= i < |suites| && suites[i].id == id && KeyOf(env, suites[i], key);
    assert more[i] == suites[i];
  }

  lemma AddToTree(env: Env, suites: seq<Suite>, tree: map<string, string>, suite: Suite)
    requires TreeMatches(env, suites, tree) && ProperSuites([suite])
    ensures TreeMatches(env, suites + [suite], tree[SuiteKey(env, suite.name, suite.parent) := suite.id])
  {
    hide SuiteKey, InTree, IsId;
    var more, key := suites + [suite], SuiteKey(env, suite.name, suite.parent);
    assert [suite][0] == suite && more[|suites|] == suite;
    LastIsIn(env, suites, suite);
    forall k | k in tree ensures InTree(env, more, k, tree[k]) { StillInTree(env, suites, more, k, tree[k]); }
    assert IsId(suite.id) ==> suite.id != "" by { IdIsNotEmpty(suite.id); }
  }

  lemma IdIsNotEmpty(id: string)
    ensures IsId(id) ==> id != ""
  {
  }

  lemma LastIsIn(env: Env, suites: seq<Suite>, suite: Suite)
    ensures InTree(env, suites + [suite], SuiteKey(env, suite.name, suite.parent), suite.id)
  {
    assert KeyOf(env, (suites + [suite])[|suites|], SuiteKey(env, suite.name, suite.parent));
  }

  lemma {:induction false} TreeMirrors(env: Env, suites: seq<Suite>)
    requires ProperSuites(suites)
    ensures TreeMatches(env, suites, TreeOf(env, suites))
  {
    hide SuiteKey, InTree, IsId;
    if suites != [] {
      var n := |suites| - 1;
      TreeMirrors(env, suites[..n]);
      AddToTree(env, suites[..n], TreeOf(env, suites[..n]), suites[n]);
      assert suites[..n] + [suites[n]] == suites;
    }
  }

  /** No suite from `base` on is called the same as an earlier one under the same parent. */
  predicate NoTwins(env: Env, suites: seq<Suite>, base: nat) {
    forall i, j | 0 <= i < j < |suites| && base <= j :: !Same(env, suites[i], suites[j].name, suites[j].parent)
  }

  lemma AddNoTwin(env: Env, suites: seq<Suite>, tree: map<string, string>, suite: Suite, base: nat)
    requires TreeMatches(env, suites, tree) && ProperSuites([suite])
    requires SuiteKey(env, suite.name, suite.parent) !in tree && NoTwins(env, suites, base)
    ensures NoTwins(env, suites + [suite], base)
  {
    hide SuiteKey, Same, InTree, IsId;
    var more := suites + [suite];
    assert [suite][0] == suite;
    forall i | 0 <= i < |suites| ensures !Same(env, suites[i], suite.name, suite.parent) {
      KeyIsExact(env, suites[i], suite.name, suite.parent);
    }
    assert forall i, j | 0 <= i < j < |suites| && base <= j :: more[i] == suites[i] && more[j] == suites[j];
  }

  // ----- one spec -----

  lemma EnsureMirrors(env: Env, st: State, name: string, parent: Option<string>, reply: Reply, base: nat)
    requires Mirrors(env, st) && NoTwins(env, st.server.suites, base) && !env.dryRun
    requires ProperReply(reply) && (parent.Some? ==> IsId(parent.value))
    ensures var (after, id) := EnsureSuite(env, st, name, parent, reply);
      && NoTwins(env, after.server.suites, base) && after.roots == st.roots
      && (id.Some? ==>
            Mirrors(env, after) && SuiteKey(env, name, parent) in after.tree
            && after.tree[SuiteKey(env, name, parent)] == id.value)
  {
    hide SuiteKey, NoTwins, TreeMatches, IsId;
    MirrorsKey(env, st, SuiteKey(env, name, parent));
    if SuiteKey(env, name, parent) !in st.tree && !reply.Refused? {
      var suite := Suite(reply.id, name, parent);
      assert ProperSuites([suite]);
      AddToTree(env, st.server.suites, st.tree, suite);
      AddNoTwin(env, st.server.suites, st.tree, suite, base);
    }
  }

  lemma MirrorsKey(env: Env, st: State, key: string)
    requires Mirrors(env, st)
    ensures key in st.tree ==> st.tree[key] != ""
    ensures forall name | name in st.roots ::
      SuiteKey(env, name, None) in st.tree && st.roots[name] == st.tree[SuiteKey(env, name, None)]
  {
  }

  /** What the tree holds under a key is the id of such a suite. */
  lemma TreeFinds(env: Env, st: State, name: string, parent: Option<string>) returns (i: nat)
    requires Mirrors(env, st) && SuiteKey(env, name, parent) in st.tree && (parent.Some? ==> IsId(parent.value))
    ensures i < |st.server.suites| && st.server.suites[i].id == st.tree[SuiteKey(env, name, parent)]
      && IsId(st.server.suites[i].id)
    ensures Same(env, st.server.suites[i], name, parent)
  {
    hide SuiteKey, Same;
    var key := SuiteKey(env, name, parent);
    assert InTree(env, st.server.suites, key, st.tree[key]);
    i :| i < |st.server.suites| && st.server.suites[i].id == st.tree[key] && KeyOf(env, st.server.suites[i], key);
    KeyIsExact(env, st.server.suites[i], name, parent);
  }

  /** A folder called `ui` at position `i` of a path: at its start or right after a slash. */
  predicate UiAt(file: string, i: nat) {
    i + 2 < |file| && file[i] == 'u' && file[i + 1] == 'i' && file[i + 2] == '/' && (i == 0 || file[i - 1] == '/')
  }

  lemma {:induction false} FolderIff(path: string)
    ensures HasUiFolder(path) <==> exists i: nat :: 0 < i && UiAt(path, i)
  {
    if path != "" {
      var rest := path[1..];
      FolderIff(rest);
      assert "/ui/" <= path <==> path[0] == '/' && UiAt(path, 1);
      if HasUiFolder(rest) {
        var i: nat :| 0 < i && UiAt(rest, i);
        assert UiAt(path, i + 1);
      }
      if exists i: nat :: 0 < i && UiAt(path, i) {
        var i: nat :| 0 < i && UiAt(path, i);
        if i > 1 { assert UiAt(rest, i - 1); }
      }
    }
  }

  /** A spec belongs to the UI project exactly when some folder of its path is called `ui`: the first
      one or any other. */
  lemma ProjectIff(spec: Spec)
    ensures ProjectName(spec) == if exists i: nat :: UiAt(spec.file, i) then "UI" else "API"
  {
    FolderIff(spec.file);
    assert "ui/" <= spec.file <==> UiAt(spec.file, 0);
    if exists i: nat :: UiAt(spec.file, i) {
      var i: nat :| UiAt(spec.file, i);
      assert i > 0 || "ui/" <= spec.file;
    }
  }

  /** The name of the root that a spec belongs under. */
  ghost function RootName(spec: Spec): string {
    if exists i: nat :: UiAt(spec.file, i) then "UI" else "API"
  }

  /** The suite with this id is called after the spec's file, under the root for its kind. */
  ghost predicate Placed(env: Env, suites: seq<Suite>, id: string, spec: Spec) {
    exists r, s | 0 <= r < |suites| && 0 <= s < |suites| ::
      && Same(env, suites[r], RootName(spec), None)
      && Same(env, suites[s], env.nameFor(spec.file), Some(suites[r].id)) && suites[s].id == id
  }

  lemma StaysPlaced(env: Env, suites: seq<Suite>, more: seq<Suite>, id: string, spec: Spec)
    requires Placed(env, suites, id, spec) && suites <= more
    ensures Placed(env, more, id, spec)
  {
    hide Same, RootName;
    var r, s :| 0 <= r < |suites| && 0 <= s < |suites| && Same(env, suites[r], RootName(spec), None)
      && Same(env, suites[s], env.nameFor(spec.file), Some(suites[r].id)) && suites[s].id == id;
    assert more[r] == suites[r] && more[s] == suites[s];
  }

  /** The root suite is remembered; its id is in the tree. */
  lemma RootMirrors(env: Env, st: State, project: string, id: string)
    requires Mirrors(env, st) && SuiteKey(env, project, None) in st.tree && st.tree[SuiteKey(env, project, None)] == id
    ensures Mirrors(env, st.(roots := st.roots[project := id]))
  {
    hide SuiteKey, TreeMatches;
  }

  lemma SuiteForPlaces(env: Env, st: State, spec: Spec, answer: Answer, base: nat)
    requires Mirrors(env, st) && NoTwins(env, st.server.suites, base) && !env.dryRun
    requires ProperReply(answer.root) && ProperReply(answer.child)
    ensures var (after, id) := SuiteFor(env, st, spec, answer);
      && NoTwins(env, after.server.suites, base)
      && (id.Some? ==> Mirrors(env, after) && Placed(env, after.server.suites, id.value, spec))
  {
    hide EnsureSuite, ProjectName, Mirrors, NoTwins, SuiteKey, IsId, Same;
    ProjectIff(spec);
    var project := ProjectName(spec);
    EnsureMirrors(env, st, project, None, answer.root, base);
    MirrorsKey(env, st, "");
    var (rooted, rootId) :=
      if project in st.roots then (st, Some(st.roots[project])) else EnsureSuite(env, st, project, None, answer.root);
    if rootId.Some? {
      var r := TreeFinds(env, rooted, project, None);
      RootMirrors(env, rooted, project, rootId.value);
      PlaceUnder(env, rooted.(roots := rooted.roots[project := rootId.value]), spec, r, answer.child, base);
    }
  }

  lemma PlaceUnder(env: Env, st: State, spec: Spec, r: nat, reply: Reply, base: nat)
    requires Mirrors(env, st) && NoTwins(env, st.server.suites, base) && !env.dryRun && ProperReply(reply)
    requires r < |st.server.suites| && IsId(st.server.suites[r].id)
      && Same(env, st.server.suites[r], RootName(spec), None)
    ensures var (after, id) := EnsureSuite(env, st, env.nameFor(spec.file), Some(st.server.suites[r].id), reply);
      && NoTwins(env, after.server.suites, base)
      && (id.Some? ==> Mirrors(env, after) && Placed(env, after.server.suites, id.value, spec))
  {
    hide EnsureSuite, RootName, Mirrors, NoTwins, SuiteKey, IsId, Same;
    var root := st.server.suites[r];
    EnsureMirrors(env, st, env.nameFor(spec.file), Some(root.id), reply, base);
    EnsureOnlySuites(env, st, env.nameFor(spec.file), Some(root.id), reply);
    var (after, id) := EnsureSuite(env, st, env.nameFor(spec.file), Some(root.id), reply);
    if id.Some? {
      var s := TreeFinds(env, after, env.nameFor(spec.file), Some(root.id));
      assert after.server.suites[r] == root && Same(env, after.server.suites[r], RootName(spec), None);
    }
  }

  // ----- a whole run -----

  /** What one step adds is placed. */
  ghost predicate StepPlaces(env: Env, st: State, next: State, spec: Spec, answer: Answer) {
    Stores(env, st, spec, answer) ==>
      && |next.server.cases| == |st.server.cases| + 1
      && PlacedIn(env, next.server.suites, next.server.cases[|st.server.cases|], spec)
  }

  lemma StepMirrors(env: Env, st: State, spec: Spec, answer: Answer, base: nat)
    requires !st.aborted && Mirrors(env, st) && NoTwins(env, st.server.suites, base) && !env.dryRun
    requires ProperReply(answer.root) && ProperReply(answer.child)
    ensures var next := Step(env, st, spec, answer);
      && NoTwins(env, next.server.suites, base) && StepPlaces(env, st, next, spec, answer)
      && (!next.aborted ==> Mirrors(env, next))
  {
    hide AlreadyOnStage, SuiteFor, Mark, CaseTitle, NoTwins, Placed, Mirrors;
    SuiteForPlaces(env, st, spec, answer, base);
    SuiteOnlySuites(env, st, spec, answer);
    var (ready, suiteId) := SuiteFor(env, st, spec, answer);
    OnlyTheTree(env, st, st.(skipped := st.skipped + 1));
    if suiteId.Some? && !AlreadyOnStage(st.seen, spec) {
      OnlyTheTree(env, ready, FileCase(env, ready, spec, suiteId.value, answer.testCase));
    }
  }

  lemma OnlyTheTree(env: Env, st: State, next: State)
    requires next.server.suites == st.server.suites && next.tree == st.tree && next.roots == st.roots
    ensures Mirrors(env, st) ==> Mirrors(env, next)
  {
    hide SuiteKey, TreeMatches;
  }

  /** The cases from `base` on are those of the specs in `filed`, each in its place. */
  ghost predicate CasesPlaced(env: Env, specs: seq<Spec>, base: nat, server: Server, filed: seq<nat>) {
    && |server.cases| == base + |filed|
    && forall i | 0 <= i < |filed| ::
         filed[i] < |specs| && PlacedIn(env, server.suites, server.cases[base + i], specs[filed[i]])
  }

  ghost predicate PlacedIn(env: Env, suites: seq<Suite>, c: Case, spec: Spec) {
    c.suite.Some? && Placed(env, suites, c.suite.value, spec)
  }

  lemma StillPlaced(env: Env, specs: seq<Spec>, base: nat, server: Server, filed: seq<nat>, next: Server)
    requires CasesPlaced(env, specs, base, server, filed) && server.suites <= next.suites
    requires server.cases <= next.cases
    ensures next.cases == server.cases ==> CasesPlaced(env, specs, base, next, filed)
    ensures |next.cases| == |server.cases| + 1 ==>
      forall k: nat | k < |specs| && PlacedIn(env, next.suites, next.cases[|server.cases|], specs[k]) ::
        CasesPlaced(env, specs, base, next, filed + [k])
  {
    hide Placed;
    forall i | 0 <= i < |filed| ensures PlacedIn(env, next.suites, next.cases[base + i], specs[filed[i]]) {
      assert PlacedIn(env, server.suites, server.cases[base + i], specs[filed[i]]);
      StaysPlaced(env, server.suites, next.suites, server.cases[base + i].suite.value, specs[filed[i]]);
    }
  }

  /** Over a whole run: no suite is made beside one whose name folds to the same under the same parent,
      and every case that is stored sits in the suite of its spec's file, under the API or the UI root. */
  lemma {:induction false} RunPlaces(env: Env, server: Server, specs: seq<Spec>, answers: seq<Answer>, n: nat)
    requires n <= |specs| == |answers| && !env.dryRun && ProperSuites(server.suites) && ProperAnswers(answers)
    ensures var st := After(env, server, specs, answers, n);
      && NoTwins(env, st.server.suites, |server.suites|) && (!st.aborted ==> Mirrors(env, st))
      && CasesPlaced(env, specs, |server.cases|, st.server, Filed(env, server, specs, answers, n))
  {
    hide Step, NoTwins, Placed, Mirrors, Stores, TreeOf, IndexOf, Visible;
    if n == 0 {
      TreeMirrors(env, server.suites);
      StartMirrors(env, server);
      NoneAdded(env, server.suites);
    } else {
      RunPlaces(env, server, specs, answers, n - 1);
      var st, filed := After(env, server, specs, answers, n - 1), Filed(env, server, specs, answers, n - 1);
      if st.aborted {
        StaysAborted(env, st, specs[n - 1], answers[n - 1]);
        NotStoredAfterwards(env, st, specs[n - 1], answers[n - 1]);
      } else {
        StepMirrors(env, st, specs[n - 1], answers[n - 1], |server.suites|);
        StepEffect(env, st, specs[n - 1], answers[n - 1]);
        StepCases(env, st, specs[n - 1], answers[n - 1]);
        StillPlaced(env, specs, |server.cases|, st.server, filed, Step(env, st, specs[n - 1], answers[n - 1]).server);
      }
    }
  }

  lemma StartMirrors(env: Env, server: Server)
    requires TreeMatches(env, server.suites, TreeOf(env, server.suites))
    ensures Mirrors(env, Start(env, server))
  {
    hide TreeMatches, IndexOf, Visible;
  }

  lemma NotStoredAfterwards(env: Env, st: State, spec: Spec, answer: Answer)
    requires st.aborted
    ensures !Stores(env, st, spec, answer)
  {
  }

  lemma NoneAdded(env: Env, suites: seq<Suite>)
    ensures NoTwins(env, suites, |suites|)
  {
  }
}
