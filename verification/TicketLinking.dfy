/** Tesbo-Frontend/components/LogBugDialog.tsx, handleLinkExisting: linking a failed execution to
    existing bugs and to Jira or Linear tickets, across failed and repeated attempts. addBugLink
    may be repeated freely; createBug makes a new bug for the ticket every time it succeeds. */
module TicketLinking {

  type Ticket = string
  type BugId = nat

  /** What the server answers during one attempt: to the n-th addBugLink and the n-th createBug. */
  datatype Answers = Answers(link: nat -> bool, create: nat -> bool)

  /** The dialog's selections, then what its calls have left elsewhere: the tickets turned into
      bugs, the bugs linked to the execution, and how often onLogged fired. */
  datatype Session = Session(
    open: bool, issues: seq<Ticket>, bugs: seq<BugId>, failed: bool,
    filed: seq<Ticket>, linked: set<BugId>, logged: nat)

  /** resetBugDialog. */
  function Reset(s: Session): Session {
    Session(false, [], [], false, s.filed, s.linked, s.logged)
  }

  /** The tickets among `issues[..n]` whose createBug succeeded, or failed, in order. */
  function Picked(issues: seq<Ticket>, n: nat, ok: nat -> bool, wanted: bool): seq<Ticket>
    requires n <= |issues|
  {
    if n == 0 then []
    else if ok(n - 1) == wanted then Picked(issues, n - 1, ok, wanted) + [issues[n - 1]]
    else Picked(issues, n - 1, ok, wanted)
  }

  /** The bugs among `bugs[..n]` whose addBugLink succeeded. */
  function LinkedBy(bugs: seq<BugId>, n: nat, ok: nat -> bool): set<BugId>
    requires n <= |bugs|
  {
    if n == 0 then {} else LinkedBy(bugs, n - 1, ok) + if ok(n - 1) then {bugs[n - 1]} else {}
  }

  predicate AllLinked(bugs: seq<BugId>, ok: nat -> bool) {
    forall n: nat | n < |bugs| :: ok(n)
  }

  /** One press of "Link Bug". */
  function LinkExisting(s: Session, answers: Answers): Session {
    if !s.open || (s.bugs == [] && s.issues == []) then s
    else
      var remaining := Picked(s.issues, |s.issues|, answers.create, false);
      var done := s.(issues := remaining, failed := false,
                     filed := s.filed + Picked(s.issues, |s.issues|, answers.create, true),
                     linked := s.linked + LinkedBy(s.bugs, |s.bugs|, answers.link));
      if AllLinked(s.bugs, answers.link) && remaining == [] then Reset(done).(logged := s.logged + 1)
      else done.(failed := true)
  }

  // ----- the component -----

  class Dialog {
    var open: bool
    var selectedIssues: seq<Ticket>
    var selectedBugs: seq<BugId>
    var saving: bool
    var saveError: bool
    // the far side
    var filed: seq<Ticket>
    var linked: set<BugId>
    var logged: nat

    function View(): Session
      reads this
    {
      Session(open, selectedIssues, selectedBugs, saveError, filed, linked, logged)
    }

    constructor (issues: seq<Ticket>, bugs: seq<BugId>)
      ensures View() == Session(true, issues, bugs, false, [], {}, 0) && !saving
    {
      open, selectedIssues, selectedBugs, saving, saveError := true, issues, bugs, false, false;
      filed, linked, logged := [], {}, 0;
    }

    method ResetBugDialog()
      modifies `open, `selectedIssues, `selectedBugs, `saveError
      ensures View() == Reset(old(View()))
    {
      open, selectedIssues, selectedBugs, saveError := false, [], [], false;
    }

    /** `Promise.all` over the selected bugs: every request is sent, and one failure fails all. */
    method LinkBugs(ok: nat -> bool) returns (failed: bool)
      modifies `linked
      ensures linked == old(linked) + LinkedBy(selectedBugs, |selectedBugs|, ok)
      ensures failed == !AllLinked(selectedBugs, ok)
    {
      failed := false;
      for b := 0 to |selectedBugs|
        invariant linked == old(linked) + LinkedBy(selectedBugs, b, ok)
        invariant failed == exists n: nat :: n < b && !ok(n)
      {
        if ok(b) { linked := linked + {selectedBugs[b]}; } else { failed := true; }
      }
    }

    /** The loop that files a bug for each selected ticket and keeps the ones that fail. */
    method FileTickets(ok: nat -> bool) returns (remaining: seq<Ticket>)
      modifies `filed
      ensures filed == old(filed) + Picked(selectedIssues, |selectedIssues|, ok, true)
      ensures remaining == Picked(selectedIssues, |selectedIssues|, ok, false)
    {
      remaining := [];
      for i := 0 to |selectedIssues|
        invariant filed == old(filed) + Picked(selectedIssues, i, ok, true)
        invariant remaining == Picked(selectedIssues, i, ok, false)
      {
        if ok(i) {
          filed := filed + [selectedIssues[i]];
        } else {
          remaining := remaining + [selectedIssues[i]];
        }
      }
    }

    /** handleLinkExisting. */
    method HandleLinkExisting(answers: Answers)
      modifies this
      ensures View() == if old(saving) then old(View()) else LinkExisting(old(View()), answers)
      ensures saving == old(saving)
    {
      hide Picked, LinkedBy, AllLinked;
      if !open { return; }
      if selectedBugs == [] && selectedIssues == [] { return; }
      if saving { return; }
      saving, saveError := true, false;
      var firstError := LinkBugs(answers.link);
      var remaining := FileTickets(answers.create);
      firstError := firstError || remaining != [];
      selectedIssues := remaining;
      if firstError {
        saveError := true;
      } else {
        ResetBugDialog();
        logged := logged + 1;
      }
      saving := false;
    }
  }

  // ----- sessions -----

  function After(s: Session, es: seq<Answers>): Session
    decreases |es|
  {
    if es == [] then s else After(LinkExisting(s, es[0]), es[1..])
  }

  lemma {:induction false} PickedSplits(issues: seq<Ticket>, n: nat, ok: nat -> bool)
    requires n <= |issues|
    ensures multiset(Picked(issues, n, ok, true)) + multiset(Picked(issues, n, ok, false)) == multiset(issues[..n])
  {
    if n > 0 {
      PickedSplits(issues, n - 1, ok);
      assert issues[..n] == issues[..n - 1] + [issues[n - 1]];
      AddOne(Picked(issues, n - 1, ok, true), Picked(issues, n - 1, ok, false), issues[..n - 1], issues[n - 1]);
    }
  }

  lemma AddOne(taken: seq<Ticket>, left: seq<Ticket>, all: seq<Ticket>, x: Ticket)
    requires multiset(taken) + multiset(left) == multiset(all)
    ensures multiset(taken + [x]) + multiset(left) == multiset(all + [x])
    ensures multiset(taken) + multiset(left + [x]) == multiset(all + [x])
  {
  }

  /** Every attempt conserves the tickets: those turned into bugs and those still selected are
      together a permutation of what they were, and a failed link takes nothing back. */
  lemma LinkConservesTickets(s: Session, answers: Answers)
    ensures var t := LinkExisting(s, answers);
            && multiset(t.filed) + multiset(t.issues) == multiset(s.filed) + multiset(s.issues)
            && s.filed <= t.filed && s.linked <= t.linked
            && (s.open && !t.open ==> t.issues == [] && (forall b | b in s.bugs :: b in t.linked))
  {
    PickedSplits(s.issues, |s.issues|, answers.create);
    assert s.issues[..|s.issues|] == s.issues;
    if AllLinked(s.bugs, answers.link) { AllAreLinked(s.bugs, |s.bugs|, answers.link); }
  }

  lemma {:induction false} AllAreLinked(bugs: seq<BugId>, n: nat, ok: nat -> bool)
    requires n <= |bugs| && AllLinked(bugs, ok)
    ensures forall i | 0 <= i < n :: bugs[i] in LinkedBy(bugs, n, ok)
  {
    if n > 0 { AllAreLinked(bugs, n - 1, ok); }
  }

  /** However often linking is retried, at every moment the tickets filed and the tickets still
      selected are a permutation of the first selection; so a closed dialog has filed exactly one
      bug per ticket, even when the existing-bug links kept failing. */
  lemma {:induction false} LinkingFilesEachTicketOnce(s: Session, es: seq<Answers>)
    ensures var t := After(s, es);
            && multiset(t.filed) + multiset(t.issues) == multiset(s.filed) + multiset(s.issues)
            && (s.open && !t.open ==> multiset(t.filed) == multiset(s.filed) + multiset(s.issues))
    decreases |es|
  {
    if es != [] {
      var next := LinkExisting(s, es[0]);
      LinkConservesTickets(s, es[0]);
      if next.open {
        LinkingFilesEachTicketOnce(next, es[1..]);
      } else {
        ClosedStays(next, es[1..]);
      }
    }
  }

  lemma {:induction false} ClosedStays(s: Session, es: seq<Answers>)
    requires !s.open
    ensures After(s, es) == s
    decreases |es|
  {
    if es != [] { ClosedStays(s, es[1..]); }
  }

  /** The tickets filed are those whose createBug succeeds, and the ones kept are those whose fails. */
  lemma {:induction false} PickedAre(issues: seq<Ticket>, n: nat, ok: nat -> bool, wanted: bool)
    requires n <= |issues|
    ensures forall x ::
      x in Picked(issues, n, ok, wanted) <==> exists i: nat :: i < n && ok(i) == wanted && issues[i] == x
    ensures Picked(issues, n, ok, wanted) == [] <==> forall i: nat | i < n :: ok(i) != wanted
  {
    if n > 0 {
      PickedAre(issues, n - 1, ok, wanted);
      assert issues[n - 1] in [issues[n - 1]];
    }
  }

  lemma {:induction false} LinkedAre(bugs: seq<BugId>, n: nat, ok: nat -> bool)
    requires n <= |bugs|
    ensures forall b :: b in LinkedBy(bugs, n, ok) <==> exists i: nat :: i < n && ok(i) && bugs[i] == b
  {
    if n > 0 { LinkedAre(bugs, n - 1, ok); }
  }

  /** A press with nothing selected does nothing. Any other one files and links what the server takes;
      when it takes everything the dialog closes and onLogged fires, and otherwise it stays open with
      the failed tickets, all the bugs and the error. */
  lemma PressDoes(s: Session, answers: Answers)
    ensures !s.open || (s.bugs == [] && s.issues == []) ==> LinkExisting(s, answers) == s
    ensures s.open && (s.bugs != [] || s.issues != []) ==>
      var t := LinkExisting(s, answers);
      && (forall x :: x in t.filed <==>
            x in s.filed || exists i: nat :: i < |s.issues| && answers.create(i) && s.issues[i] == x)
      && (forall b :: b in t.linked <==>
            b in s.linked || exists i: nat :: i < |s.bugs| && answers.link(i) && s.bugs[i] == b)
      && if (forall i: nat | i < |s.issues| :: answers.create(i)) && (forall i: nat | i < |s.bugs| :: answers.link(i))
         then !t.open && t.issues == [] && t.bugs == [] && t.logged == s.logged + 1
         else && t.open && t.failed && t.bugs == s.bugs && t.logged == s.logged
              && forall x ::
                   x in t.issues <==> exists i: nat :: i < |s.issues| && !answers.create(i) && s.issues[i] == x
  {
    hide Picked, LinkedBy;
    PickedAre(s.issues, |s.issues|, answers.create, true);
    PickedAre(s.issues, |s.issues|, answers.create, false);
    LinkedAre(s.bugs, |s.bugs|, answers.link);
  }
}
