/** e2e/scripts/push-to-tesbo.ts, the run: index what the project holds, then create the suites and
    the cases that are missing. The project's answers are inputs: a call either stores and says so,
    stores and its answer is lost, or does nothing and fails. */
module SuitePush {
  import opened Options
  import opened Text
  import opened SpecTitles

  datatype Suite = Suite(id: string, name: string, parent: Option<string>)

  datatype Case = Case(id: string, title: string, suite: Option<string>)

  datatype Server = Server(suites: seq<Suite>, cases: seq<Case>)

  datatype Reply = Stored(id: string) | Lost(id: string) | Refused

  /** The replies to the calls that one spec can make. */
  datatype Answer = Answer(root: Reply, child: Reply, testCase: Reply)

  /** `fold` is toLowerCase; `nameFor` is suiteNameFor on the spec's file. */
  datatype Env = Env(dryRun: bool, fold: string -> string, nameFor: string -> string)

  // ----- what the project holds -----

  datatype Index = Index(byId: set<string>, byText: set<string>)

  function Tags(cases: set<Case>): set<string> {
    set c | c in cases && TagOf(c.title).Some? :: TagOf(c.title).value
  }

  function Keys(cases: set<Case>): set<string> {
    set c | c in cases :: NormalizeTitle(c.title)
  }

  function IndexOf(cases: set<Case>): Index {
    Index(Tags(cases), Keys(cases))
  }

  function All(cases: seq<Case>): set<Case> {
    set c | c in cases
  }

  predicate UniqueIds(cases: seq<Case>) {
    forall i, j | 0 <= i < j < |cases| :: cases[i].id != cases[j].id
  }

  /** The rows that the list endpoint answers for one suite, or for no suite. */
  function RowsIn(cases: seq<Case>, scope: Option<string>): (rows: seq<Case>)
    ensures forall c :: c in rows <==> c in cases && c.suite == scope
  {
    if cases == [] then []
    else (if cases[0].suite == scope then [cases[0]] else []) + RowsIn(cases[1..], scope)
  }

  /** `suites.map((s) => s.id)` and then `none`. */
  function Scopes(suites: seq<Suite>): (scopes: seq<Option<string>>)
    ensures |scopes| == |suites| + 1 && scopes[|suites|] == None
    ensures forall i | 0 <= i < |suites| :: scopes[i] == Some(suites[i].id)
  {
    seq(|suites|, i requires 0 <= i < |suites| => Some(suites[i].id)) + [None]
  }

  const PAGE_CEILING := 500

  /** The cases that reading suite by suite comes across. */
  function Visible(server: Server): set<Case> {
    set c | c in server.cases && c.suite in Scopes(server.suites)
  }

  function IdsOf(cases: set<Case>): set<string> {
    set c | c in cases :: c.id
  }

  predicate FitsOnPages(server: Server) {
    forall scope | scope in Scopes(server.suites) :: |RowsIn(server.cases, scope)| < PAGE_CEILING
  }

  /** stageIndex: nothing when it throws. `reported` is the x-total-count header, 0 when missing. */
  method StageIndex(server: Server, reported: nat) returns (index: Option<Index>)
    requires UniqueIds(server.cases)
    ensures index.Some?
       <==> (forall scope | scope in Scopes(server.suites) :: |RowsIn(server.cases, scope)| < 500)
            && (reported == 0 || reported <= |IdsOf(Visible(server))|)
    ensures index.Some? ==> index.value == IndexOf(Visible(server))
  {
    hide TagOf, NormalizeTitle, RowsIn, UniqueIds, Scopes;
    var byId, byText, seenIds: set<string> := {}, {}, {};
    var scopes := Scopes(server.suites);
    ghost var done: set<Case> := {};
    for i := 0 to |scopes|
      invariant done == ReadSoFar(server, i)
      invariant Index(byId, byText) == IndexOf(done) && seenIds == IdsOf(done)
      invariant forall k | 0 <= k < i :: |RowsIn(server.cases, scopes[k])| < PAGE_CEILING
    {
      var rows := RowsIn(server.cases, scopes[i]);
      NextScope(server, i);
      if |rows| >= PAGE_CEILING {
        assert scopes[i] in scopes;
        return None;
      }
      byId, byText, seenIds := AddRows(server.cases, rows, byId, byText, seenIds, done);
      done := done + All(rows);
    }
    assert scopes[..|scopes|] == scopes;
    assert done == Visible(server);
    if reported != 0 && |seenIds| < reported {
      return None;
    }
    return Some(Index(byId, byText));
  }

  /** The cases of the first `n` scopes. */
  ghost function ReadSoFar(server: Server, n: nat): set<Case>
    requires n <= |server.suites| + 1
  {
    set c | c in server.cases && c.suite in Scopes(server.suites)[..n]
  }

  lemma NextScope(server: Server, n: nat)
    requires n <= |server.suites|
    ensures ReadSoFar(server, n + 1) == ReadSoFar(server, n) + All(RowsIn(server.cases, Scopes(server.suites)[n]))
  {
    var scopes := Scopes(server.suites);
    assert scopes[..n + 1] == scopes[..n] + [scopes[n]];
  }

  lemma SameCase(cases: seq<Case>, read: set<Case>, row: Case)
    requires UniqueIds(cases) && row in cases && (forall c | c in read :: c in cases)
    ensures row.id in IdsOf(read) <==> row in read
  {
    if row.id in IdsOf(read) {
      var c :| c in read && c.id == row.id;
      var i :| 0 <= i < |cases| && cases[i] == c;
      var j :| 0 <= j < |cases| && cases[j] == row;
      assert i == j;
    }
  }

  /** The rows of one answer; a row whose id was seen before is passed over. */
  method AddRows(ghost cases: seq<Case>, rows: seq<Case>, byId0: set<string>, byText0: set<string>,
                 seenIds0: set<string>, ghost done: set<Case>)
    returns (byId: set<string>, byText: set<string>, seenIds: set<string>)
    requires UniqueIds(cases) && (forall c | c in rows :: c in cases) && (forall c | c in done :: c in cases)
    requires Index(byId0, byText0) == IndexOf(done) && seenIds0 == IdsOf(done)
    ensures Index(byId, byText) == IndexOf(done + All(rows)) && seenIds == IdsOf(done + All(rows))
  {
    hide TagOf, NormalizeTitle, UniqueIds;
    byId, byText, seenIds := byId0, byText0, seenIds0;
    ghost var read := done;
    for j := 0 to |rows|
      invariant read == done + All(rows[..j])
      invariant Index(byId, byText) == IndexOf(read) && seenIds == IdsOf(read)
    {
      var row := rows[j];
      assert All(rows[..j + 1]) == All(rows[..j]) + {row};
      SameCase(cases, read, row);
      if row.id !in seenIds {
        seenIds := seenIds + {row.id};
        var tag := TagOf(row.title);
        if tag.Some? {
          byId := byId + {tag.value};
        }
        byText := byText + {NormalizeTitle(row.title)};
        AddOne(read, row);
      }
      read := read + {row};
    }
    assert rows[..|rows|] == rows;
  }

  lemma AddOne(done: set<Case>, row: Case)
    ensures IdsOf(done + {row}) == IdsOf(done) + {row.id}
    ensures Keys(done + {row}) == Keys(done) + {NormalizeTitle(row.title)}
    ensures Tags(done + {row}) == Tags(done) + if TagOf(row.title).Some? then {TagOf(row.title).value} else {}
  {
    hide TagOf, NormalizeTitle;
  }

  /** With the project's own total at hand, an index that came back holds every case, and none is
      refused that would: it comes back exactly when every answer fits on its page and no case sits
      in a suite that was not listed. */
  lemma IndexIsWhole(server: Server)
    requires UniqueIds(server.cases)
    ensures |IdsOf(Visible(server))| >= |server.cases| <==> Visible(server) == All(server.cases)
  {
    CountIds(server.cases);
    var seen, all := IdsOf(Visible(server)), IdsOf(All(server.cases));
    assert seen <= all;
    if |seen| >= |all| {
      SameSize(seen, all);
      forall c | c in server.cases ensures c in Visible(server) {
        assert c in All(server.cases) && c.id in all;
        var d :| d in Visible(server) && d.id == c.id;
      }
    }
  }

  lemma SameSize(a: set<string>, b: set<string>)
    requires a <= b && |a| >= |b|
    ensures a == b
  {
    if a != b {
      var x :| x in b && x !in a;
      assert a <= b - {x};
      SizeMonotone(a, b - {x});
    }
  }

  lemma {:induction false} SizeMonotone(a: set<string>, b: set<string>)
    requires a <= b
    ensures |a| <= |b|
  {
    if a != {} {
      var x :| x in a;
      SizeMonotone(a - {x}, b - {x});
    }
  }

  lemma {:induction false} CountIds(cases: seq<Case>)
    requires UniqueIds(cases)
    ensures |IdsOf(All(cases))| == |cases|
  {
    if cases != [] {
      var n := |cases| - 1;
      CountIds(cases[..n]);
      assert IdsOf(All(cases)) == IdsOf(All(cases[..n])) + {cases[n].id} by {
        assert forall c :: c in cases <==> c in cases[..n] || c == cases[n];
      }
    }
  }

  // ----- one run -----

  /** What a run remembers and what it has done so far. */
  datatype State = State(server: Server, seen: Index, tree: map<string, string>, roots: map<string, string>,
                         created: nat, skipped: nat, failed: nat, plan: seq<Spec>, aborted: bool)

  /** `${parentId ?? "root"}::${name.trim().toLowerCase()}`. */
  function SuiteKey(env: Env, name: string, parent: Option<string>): string {
    (if parent.Some? then parent.value else "root") + "::" + env.fold(Trim(name))
  }

  function TreeOf(env: Env, suites: seq<Suite>): map<string, string> {
    if suites == [] then map[]
    else var s := suites[|suites| - 1];
      TreeOf(env, suites[..|suites| - 1])[SuiteKey(env, s.name, s.parent) := s.id]
  }

  /** alreadyOnStage. */
  predicate AlreadyOnStage(seen: Index, spec: Spec) {
    || (SplitSpecId(spec.title).id.Some? && SplitSpecId(spec.title).id.value in seen.byId)
    || exists key | key in CandidateKeys(spec) :: key in seen.byText
  }

  /** What the run marks as taken before it creates a case. */
  function Mark(seen: Index, spec: Spec): Index {
    var id := SplitSpecId(spec.title).id;
    Index(if id.Some? then seen.byId + {id.value} else seen.byId,
          seen.byText + set key | key in CandidateKeys(spec))
  }

  /** `/(^|\/)ui\//`. */
  predicate IsUiSpec(file: string) {
    "ui/" <= file || HasUiFolder(file)
  }

  predicate HasUiFolder(path: string) {
    path != "" && ("/ui/" <= path || HasUiFolder(path[1..]))
  }

  function ProjectName(spec: Spec): string {
    if IsUiSpec(spec.file) then "UI" else "API"
  }

  /** ensureSuite: the id of the suite, or nothing when the call fails and the run ends. */
  function EnsureSuite(env: Env, st: State, name: string, parent: Option<string>, reply: Reply)
    : (State, Option<string>)
  {
    var key := SuiteKey(env, name, parent);
    if key in st.tree && st.tree[key] != "" then (st, Some(st.tree[key]))
    else if env.dryRun then (st.(tree := st.tree[key := "dry-run-" + key]), Some("dry-run-" + key))
    else match reply
      case Stored(id) => (st.(server := AddSuite(st.server, Suite(id, name, parent)), tree := st.tree[key := id]),
        Some(id))
      case Lost(id) => (st.(server := AddSuite(st.server, Suite(id, name, parent)), aborted := true), None)
      case Refused => (st.(aborted := true), None)
  }

  function AddSuite(server: Server, suite: Suite): Server {
    server.(suites := server.suites + [suite])
  }

  function AddCase(server: Server, c: Case): Server {
    server.(cases := server.cases + [c])
  }

  /** The suite for a spec: under the UI or the API root, which is made first when it is missing. */
  function SuiteFor(env: Env, st: State, spec: Spec, answer: Answer): (State, Option<string>) {
    var project := ProjectName(spec);
    var (rooted, rootId) :=
      if project in st.roots then (st, Some(st.roots[project])) else EnsureSuite(env, st, project, None, answer.root);
    if rootId.None? then (rooted, None)
    else EnsureSuite(env, rooted.(roots := rooted.roots[project := rootId.value]), env.nameFor(spec.file), rootId,
      answer.child)
  }

  /** The body of the loop over the specs, for a spec that is not there yet and whose suite is. */
  function FileCase(env: Env, st: State, spec: Spec, suiteId: string, reply: Reply): State {
    var marked := st.(seen := Mark(st.seen, spec), plan := st.plan + [spec]);
    if env.dryRun then marked.(created := st.created + 1)
    else match reply
      case Stored(id) =>
        marked.(server := AddCase(st.server, Case(id, CaseTitle(spec), Some(suiteId))), created := st.created + 1)
      case Lost(id) =>
        marked.(server := AddCase(st.server, Case(id, CaseTitle(spec), Some(suiteId))), failed := st.failed + 1)
      case Refused => marked.(failed := st.failed + 1)
  }

  function Step(env: Env, st: State, spec: Spec, answer: Answer): State {
    if st.aborted then st
    else if AlreadyOnStage(st.seen, spec) then st.(skipped := st.skipped + 1)
    else
      var (ready, suiteId) := SuiteFor(env, st, spec, answer);
      if suiteId.None? then ready else FileCase(env, ready, spec, suiteId.value, answer.testCase)
  }

  function Start(env: Env, server: Server): State {
    State(server, IndexOf(Visible(server)), TreeOf(env, server.suites), map[], 0, 0, 0, [], false)
  }

  /** The run after the first `n` specs. */
  function After(env: Env, server: Server, specs: seq<Spec>, answers: seq<Answer>, n: nat): State
    requires n <= |specs| == |answers|
  {
    if n == 0 then Start(env, server)
    else Step(env, After(env, server, specs, answers, n - 1), specs[n - 1], answers[n - 1])
  }

  /** `${s.file}::${s.title}`. */
  function PairOf(spec: Spec): string {
    spec.file + "::" + spec.title
  }

  predicate HasCollision(specs: seq<Spec>) {
    exists i, j | 0 <= i < j < |specs| :: PairOf(specs[i]) == PairOf(specs[j])
  }

  /** The check before anything is asked of the project: does some pair of file and title repeat? */
  method FindCollision(specs: seq<Spec>) returns (found: bool)
    ensures found == HasCollision(specs)
  {
    hide PairOf;
    var pairs: map<string, nat> := map[];
    found := false;
    for n := 0 to |specs|
      invariant forall i | 0 <= i < n :: PairOf(specs[i]) in pairs
      invariant forall k | k in pairs :: pairs[k] >= 1 && exists i | 0 <= i < n :: PairOf(specs[i]) == k
      invariant found == exists i, j | 0 <= i < j < n :: PairOf(specs[i]) == PairOf(specs[j])
      invariant found == exists k | k in pairs :: pairs[k] > 1
    {
      var k := PairOf(specs[n]);
      var count := if k in pairs then pairs[k] else 0;
      found := found || count >= 1;
      pairs := pairs[k := count + 1];
      assert pairs[k] == count + 1;
    }
  }

  /** The script: the project's data and main's variables. */
  class Push {
    var server: Server
    var byId: set<string>
    var byText: set<string>
    var tree: map<string, string>
    var rootIds: map<string, string>
    var created: nat
    var skipped: nat
    var failed: nat
    var plan: seq<Spec>
    var aborted: bool

    function Now(): State
      reads this
    {
      State(server, Index(byId, byText), tree, rootIds, created, skipped, failed, plan, aborted)
    }

    constructor (project: Server)
      ensures server == project && !aborted
      ensures Now() == State(project, Index({}, {}), map[], map[], 0, 0, 0, [], false)
    {
      server, byId, byText, tree, rootIds := project, {}, {}, map[], map[];
      created, skipped, failed, plan, aborted := 0, 0, 0, [], false;
    }

    method Ensure(env: Env, name: string, parent: Option<string>, reply: Reply) returns (id: Option<string>)
      modifies this
      ensures (Now(), id) == EnsureSuite(env, old(Now()), name, parent, reply)
    {
      var key := SuiteKey(env, name, parent);
      if key in tree && tree[key] != "" {
        return Some(tree[key]);
      }
      if env.dryRun {
        tree := tree[key := "dry-run-" + key];
        return Some("dry-run-" + key);
      }
      if reply.Refused? {
        aborted := true;
        return None;
      }
      server := AddSuite(server, Suite(reply.id, name, parent));
      if reply.Lost? {
        aborted := true;
        return None;
      }
      tree := tree[key := reply.id];
      return Some(reply.id);
    }

    method FindSuite(env: Env, spec: Spec, answer: Answer) returns (id: Option<string>)
      modifies this
      ensures (Now(), id) == SuiteFor(env, old(Now()), spec, answer)
    {
      hide EnsureSuite, ProjectName;
      var project := ProjectName(spec);
      if project !in rootIds {
        var rootId := Ensure(env, project, None, answer.root);
        if rootId.None? {
          return None;
        }
        rootIds := rootIds[project := rootId.value];
      } else {
        assert rootIds == rootIds[project := rootIds[project]];
      }
      id := Ensure(env, env.nameFor(spec.file), Some(rootIds[project]), answer.child);
    }

    method PushSpec(env: Env, spec: Spec, answer: Answer)
      requires !aborted
      modifies this
      ensures Now() == Step(env, old(Now()), spec, answer)
    {
      hide SuiteFor, FileCase, AlreadyOnStage;
      if AlreadyOnStage(Index(byId, byText), spec) {
        skipped := skipped + 1;
        return;
      }
      var suiteId := FindSuite(env, spec, answer);
      if suiteId.None? {
        return;
      }
      FileIt(env, spec, suiteId.value, answer.testCase);
    }

    /** The rest of the loop's body. */
    method FileIt(env: Env, spec: Spec, suiteId: string, reply: Reply)
      modifies this
      ensures Now() == FileCase(env, old(Now()), spec, suiteId, reply)
    {
      hide Mark, CaseTitle;
      MarkTaken(spec);
      plan := plan + [spec];
      if env.dryRun {
        created := created + 1;
        return;
      }
      if !reply.Refused? {
        server := AddCase(server, Case(reply.id, CaseTitle(spec), Some(suiteId)));
      }
      if reply.Stored? {
        created := created + 1;
      } else {
        failed := failed + 1;
      }
    }

    /** From here on the run takes the spec, and whatever it cannot tell from it, for stored. */
    method MarkTaken(spec: Spec)
      modifies `byId, `byText
      ensures Index(byId, byText) == Mark(old(Index(byId, byText)), spec)
    {
      hide CandidateKeys, SplitSpecId;
      var keys := CandidateKeys(spec);
      byText := byText + set key | key in keys;
      var id := SplitSpecId(spec.title).id;
      if id.Some? {
        byId := byId + {id.value};
      }
    }

    /** The suites the project lists, by folded name within their parent. */
    method ReadTree(env: Env)
      modifies `tree
      ensures tree == TreeOf(env, server.suites)
    {
      tree := map[];
      for j := 0 to |server.suites|
        invariant tree == TreeOf(env, server.suites[..j])
      {
        var s := server.suites[j];
        assert server.suites[..j + 1][..j] == server.suites[..j];
        tree := tree[SuiteKey(env, s.name, s.parent) := s.id];
      }
      assert server.suites[..|server.suites|] == server.suites;
    }

    /** main. It stops before it touches the project when two specs of a file share a title, or when
        the index does not come back whole. `reported` is the x-total-count header, 0 when missing. */
    method Run(env: Env, specs: seq<Spec>, answers: seq<Answer>, reported: nat) returns (started: bool)
      requires |specs| == |answers| && UniqueIds(server.cases)
      requires Now() == State(server, Index({}, {}), map[], map[], 0, 0, 0, [], false)
      modifies this
      ensures started
        <==> !HasCollision(specs) && FitsOnPages(old(server))
             && (reported == 0 || reported <= |IdsOf(Visible(old(server)))|)
      ensures started && reported == |old(server).cases| ==> Visible(old(server)) == All(old(server).cases)
      ensures !started ==> Now() == old(Now())
      ensures started ==> Now() == After(env, old(server), specs, answers, |specs|)
    {
      hide Step, TagOf, NormalizeTitle, Visible, RowsIn, Scopes, UniqueIds;
      var collides := FindCollision(specs);
      if collides {
        return false;
      }
      var index := StageIndex(server, reported);
      IndexIsWhole(server);
      if index.None? {
        return false;
      }
      ReadTree(env);
      byId, byText := index.value.byId, index.value.byText;
      ghost var before := server;
      for i := 0 to |specs|
        invariant Now() == After(env, before, specs, answers, i)
      {
        if !aborted {
          PushSpec(env, specs[i], answers[i]);
        } else {
          StaysAborted(env, Now(), specs[i], answers[i]);
        }
      }
      return true;
    }
  }

  /** Nothing happens after the script has thrown. */
  lemma StaysAborted(env: Env, st: State, spec: Spec, answer: Answer)
    requires st.aborted
    ensures Step(env, st, spec, answer) == st
  {
  }
}
