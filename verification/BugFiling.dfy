/** Tesbo-Frontend/components/LogBugDialog.tsx with `uploadBugAttachments` of lib/api.ts: filing a
    new bug with its evidence, across failed and repeated attempts. Server calls either persist
    and succeed or do nothing and fail; which, is an input. */
module BugFiling {
  import opened Options
  import opened Text

  type File = string
  type BugId = nat

  datatype Mode = Files | BetterBugs

  /** EVIDENCE_MAX_FILES_PER_REQUEST. */
  const BATCH := 10

  /** What the server answers during one attempt: to createBug, and to the n-th batch. */
  datatype Answers = Answers(create: bool, batch: nat -> bool)

  /** The dialog's fields, then what its calls have left elsewhere: the attachments of every bug
      on the server, and how often onLogged fired. */
  datatype Session = Session(
    open: bool, title: string, issueRequired: bool, mode: Mode,
    createdId: Option<BugId>, staged: seq<File>, failed: bool,
    attached: seq<seq<File>>, logged: nat)

  /** resetBugDialog. */
  function Reset(s: Session): Session {
    Session(false, "", false, Files, None, [], false, s.attached, s.logged)
  }

  /** How many files land when batch `k` is the next to be sent: whole batches, up to the first
      one that fails. */
  function Landed(files: seq<File>, k: nat, ok: nat -> bool): (n: nat)
    ensures n <= |files|
    decreases |files|
  {
    if files == [] || !ok(k) then 0
    else
      var size := if |files| < BATCH then |files| else BATCH;
      size + Landed(files[size..], k + 1, ok)
  }

  predicate MaySubmit(s: Session) {
    s.open && Trim(s.title) != "" && !s.issueRequired
  }

  /** The state with a bug to attach to: the one an earlier attempt created, or a new one. */
  function WithBug(s: Session): (r: Session)
    ensures r.createdId.Some?
  {
    if s.createdId.Some? then s
    else s.(createdId := Some(|s.attached|), attached := s.attached + [[]])
  }

  function Attach(s: Session, n: nat): Session
    requires s.createdId.Some? && n <= |s.staged|
  {
    var id := s.createdId.value;
    if id < |s.attached| then
      s.(staged := s.staged[n..], attached := s.attached[id := s.attached[id] + s.staged[..n]])
    else s.(staged := s.staged[n..])
  }

  /** One press of "File Bug". */
  function Submit(s: Session, answers: Answers): Session {
    if !MaySubmit(s) then s
    else if s.createdId.None? && !answers.create then s.(failed := true)
    else
      var n := if s.mode == Files then Landed(s.staged, 0, answers.batch) else 0;
      var sent := Attach(WithBug(s.(failed := false)), n);
      if s.mode == Files && n < |s.staged| then sent.(failed := true)
      else Reset(sent).(logged := s.logged + 1)
  }

  // ----- the component -----

  class Dialog {
    var open: bool
    var title: string
    var issueRequired: bool
    var mode: Mode
    var bugCreatedId: Option<BugId>
    var stagedFiles: seq<File>
    var saving: bool
    var saveError: bool
    // the far side
    var attached: seq<seq<File>>
    var logged: nat

    function View(): Session
      reads this
    {
      Session(open, title, issueRequired, mode, bugCreatedId, stagedFiles, saveError, attached, logged)
    }

    /** prepareBugDialog. */
    constructor (title: string, issueRequired: bool, attached: seq<seq<File>>)
      ensures View() == Session(true, title, issueRequired, Files, None, [], false, attached, 0) && !saving
    {
      open, this.title, this.issueRequired, mode := true, title, issueRequired, Files;
      bugCreatedId, stagedFiles, saving, saveError := None, [], false, false;
      this.attached, logged := attached, 0;
    }

    method ResetBugDialog()
      modifies `open, `title, `issueRequired, `mode, `bugCreatedId, `stagedFiles, `saveError
      ensures View() == Reset(old(View()))
    {
      open, title, issueRequired, mode := false, "", false, Files;
      bugCreatedId, stagedFiles, saveError := None, [], false;
    }

    /** `bugCreatedIdRef.current ?? createBug(…)`: false when creation fails. */
    method BugToAttachTo(createOk: bool) returns (found: bool)
      modifies `bugCreatedId, `attached
      ensures found == (old(bugCreatedId).Some? || createOk)
      ensures View() == if found then WithBug(old(View())) else old(View())
    {
      if bugCreatedId.Some? { return true; }
      if !createOk { return false; }
      bugCreatedId := Some(|attached|);
      attached := attached + [[]];
      found := true;
    }

    /** uploadBugAttachments with the callback handleBugSubmit passes: every batch that lands is
        dropped from the front of the staged list at once. */
    method UploadBugAttachments(bugId: BugId, files: seq<File>, batchOk: nat -> bool) returns (ok: bool)
      requires files == stagedFiles && bugId < |attached|
      modifies `attached, `stagedFiles
      ensures var n := Landed(files, 0, batchOk);
              && ok == (n == |files|)
              && stagedFiles == files[n..]
              && attached == old(attached)[bugId := old(attached)[bugId] + files[..n]]
    {
      var i, k := 0, 0;
      assert files[0..] == files;
      assert old(attached)[bugId] + files[..0] == old(attached)[bugId];
      while i < |files|
        invariant 0 <= i <= |files| && stagedFiles == files[i..]
        invariant attached == old(attached)[bugId := old(attached)[bugId] + files[..i]]
        invariant Landed(files, 0, batchOk) == i + Landed(files[i..], k, batchOk)
        decreases |files| - i
      {
        var end := if i + BATCH < |files| then i + BATCH else |files|;
        var batch := files[i..end];
        if !batchOk(k) { return false; }
        assert files[i..][|batch|..] == files[end..];
        assert files[..end] == files[..i] + batch;
        assert old(attached)[bugId] + files[..i] + batch == old(attached)[bugId] + files[..end];
        attached := attached[bugId := attached[bugId] + batch];
        stagedFiles := stagedFiles[|batch|..];
        i, k := end, k + 1;
      }
      ok := true;
    }

    /** The upload step of handleBugSubmit, taken in Files mode when something is staged. */
    method UploadStaged(batchOk: nat -> bool) returns (ok: bool)
      requires bugCreatedId.Some? && bugCreatedId.value < |attached|
      modifies `attached, `stagedFiles
      ensures var n := if mode == Files then Landed(old(stagedFiles), 0, batchOk) else 0;
              View() == Attach(old(View()), n) && ok == (mode != Files || n == |old(stagedFiles)|)
    {
      hide Landed;
      var id := bugCreatedId.value;
      assert attached[id] + stagedFiles[..0] == attached[id];
      ok := true;
      if mode == Files && stagedFiles != [] {
        ok := UploadBugAttachments(id, stagedFiles, batchOk);
      }
    }

    /** handleBugSubmit. */
    method HandleBugSubmit(answers: Answers)
      requires bugCreatedId.Some? ==> bugCreatedId.value < |attached|
      modifies this
      ensures View() == if old(saving) then old(View()) else Submit(old(View()), answers)
      ensures saving == old(saving)
    {
      hide Landed, Trim, Attach;
      if !open || Trim(title) == "" || issueRequired { return; }
      if saving { return; }
      saving, saveError := true, false;
      var done := BugToAttachTo(answers.create);
      if done { done := UploadStaged(answers.batch); }
      if done {
        ResetBugDialog();
        logged := logged + 1;
      } else {
        saveError := true;
      }
      saving := false;
    }
  }

  // ----- sessions -----

  /** What can happen to an open dialog: presses of the button with whatever answers, and
      edits between them. */
  datatype Event =
    | Press(answers: Answers)
    | Stage(files: seq<File>)
    | Switch(mode: Mode)

  function Step(s: Session, e: Event): Session {
    match e
    case Press(answers) => Submit(s, answers)
    case Stage(files) => if s.open then s.(staged := files) else s
    case Switch(mode) => if s.open then s.(mode := mode) else s
  }

  function After(s: Session, es: seq<Event>): Session
    decreases |es|
  {
    if es == [] then s else After(Step(s, es[0]), es[1..])
  }

  /** `s` is a state of the session that began with the bugs `before` on the server: none of them
      has been touched, at most one has been added, and while the dialog is open the added one is
      the one it remembers. */
  ghost predicate OneBug(s: Session, before: seq<seq<File>>) {
    && before <= s.attached && |s.attached| <= |before| + 1
    && (s.open ==> s.createdId == if s.attached == before then None else Some(|before|))
  }

  lemma StepKeepsOneBug(s: Session, e: Event, before: seq<seq<File>>)
    requires OneBug(s, before)
    ensures OneBug(Step(s, e), before)
  {
  }

  /** At most one bug is created by Press in a session, whatever fails and whatever the user edits
      between attempts. */
  lemma {:induction false} AtMostOneBug(s: Session, es: seq<Event>, before: seq<seq<File>>)
    requires OneBug(s, before)
    ensures OneBug(After(s, es), before)
    decreases |es|
  {
    if es != [] {
      StepKeepsOneBug(s, es[0], before);
      AtMostOneBug(Step(s, es[0]), es[1..], before);
    }
  }

  /** A session in Files mode: the files already attached followed by the files still staged are
      the original list, and a closed dialog has attached every file once and logged once. */
  ghost predicate Conserves(s: Session, before: seq<seq<File>>, files: seq<File>, logged: nat) {
    && OneBug(s, before)
    && if s.open
       then && s.mode == Files && s.logged == logged
            && (if s.attached == before then [] else s.attached[|before|]) + s.staged == files
       else s.attached == before + [files] && s.staged == [] && s.logged == logged + 1
  }

  lemma PressConserves(s: Session, answers: Answers, before: seq<seq<File>>, files: seq<File>, logged: nat)
    requires Conserves(s, before, files, logged)
    ensures Conserves(Submit(s, answers), before, files, logged)
  {
    if MaySubmit(s) && !(s.createdId.None? && !answers.create) {
      var n := Landed(s.staged, 0, answers.batch);
      var got := if s.attached == before then [] else s.attached[|before|];
      assert s.staged[..n] + s.staged[n..] == s.staged;
      assert got + s.staged[..n] + s.staged[n..] == files;
      assert n == |s.staged| ==> s.staged[..n] == s.staged && s.staged[n..] == [];
      var ready := WithBug(s);
      assert ready.attached == before + [got];
      assert Attach(ready, n).attached == before + [got + s.staged[..n]];
      assert s.staged == [] ==> n == 0;
    }
  }

  /** Over any series of failed and retried presses, evidence is neither lost, repeated nor
      reordered, and success means exactly one bug, every file once, and one onLogged. */
  lemma {:induction false} FilingIsExactlyOnce(s: Session, es: seq<Event>, before: seq<seq<File>>, files: seq<File>,
                                               logged: nat)
    requires Conserves(s, before, files, logged)
    requires forall i | 0 <= i < |es| :: es[i].Press?
    ensures Conserves(After(s, es), before, files, logged)
    decreases |es|
  {
    if es != [] {
      PressConserves(s, es[0].answers, before, files, logged);
      assert forall i | 0 <= i < |es[1..]| :: es[1..][i] == es[i + 1];
      FilingIsExactlyOnce(Step(s, es[0]), es[1..], before, files, logged);
    }
  }

  /** Retrying makes progress: with the server answering, the next press finishes the session. */
  lemma {:induction false} EverythingLands(files: seq<File>, k: nat, ok: nat -> bool)
    requires forall n: nat | n >= k :: ok(n)
    ensures Landed(files, k, ok) == |files|
    decreases |files|
  {
    if files != [] {
      var size := if |files| < BATCH then |files| else BATCH;
      EverythingLands(files[size..], k + 1, ok);
    }
  }

  lemma GoodPressFinishes(s: Session, answers: Answers)
    requires MaySubmit(s) && answers.create && forall n: nat :: answers.batch(n)
    ensures !Submit(s, answers).open && Submit(s, answers).logged == s.logged + 1
  {
    EverythingLands(s.staged, 0, answers.batch);
  }

  /** A press without an execution to file for, with a blank title or with its ticket still missing
      does nothing. */
  lemma RefusedPress(s: Session, answers: Answers)
    requires !s.open || AllSpace(s.title) || s.issueRequired
    ensures Submit(s, answers) == s
  {
    TrimIsEmptyIff(s.title);
  }

  /** Any other press files a bug unless the session has one; without one it stops there. Then it
      sends the staged files in Files mode: when all have landed the dialog closes and onLogged fires,
      and otherwise it stays open with the rest, the bug and the error. */
  lemma PressDoes(s: Session, answers: Answers)
    requires s.open && !AllSpace(s.title) && !s.issueRequired
    requires s.createdId.Some? ==> s.createdId.value < |s.attached|
    ensures s.createdId.None? && !answers.create ==> Submit(s, answers) == s.(failed := true)
    ensures s.createdId.Some? || answers.create ==>
      var t, id := Submit(s, answers), if s.createdId.Some? then s.createdId.value else |s.attached|;
      var before := if s.createdId.Some? then s.attached[id] else [];
      var n := if s.mode == Files then Landed(s.staged, 0, answers.batch) else 0;
      && |t.attached| == (if s.createdId.Some? then |s.attached| else |s.attached| + 1)
      && t.attached[id] == before + s.staged[..n]
      && (forall b | 0 <= b < |s.attached| && b != id :: t.attached[b] == s.attached[b])
      && if s.mode == Files && n < |s.staged|
         then t.open && t.failed && t.staged == s.staged[n..] && t.createdId == Some(id) && t.logged == s.logged
         else !t.open && t.createdId == None && t.staged == [] && t.logged == s.logged + 1
  {
    hide Landed;
    TrimIsEmptyIff(s.title);
    if s.mode != Files && s.createdId.Some? {
      assert s.attached[s.createdId.value] + s.staged[..0] == s.attached[s.createdId.value];
    }
  }

  /** Files go in batches of ten, in order, up to the first batch that fails. */
  lemma {:induction false} BatchesOfTen(files: seq<File>, k: nat, ok: nat -> bool)
    ensures var n := Landed(files, k, ok);
      && (n < |files| ==> n % 10 == 0 && !ok(k + n / 10))
      && (forall j: nat | k <= j && (j - k) * 10 < n :: ok(j))
    decreases |files|
  {
    if files != [] && ok(k) {
      var size := if |files| < 10 then |files| else 10;
      BatchesOfTen(files[size..], k + 1, ok);
    }
  }
}
