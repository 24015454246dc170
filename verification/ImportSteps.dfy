/** Tesbo-Frontend/components/ImportTestCasesModal.tsx, the step DSL: `action => result` joined by
    ` | ` is what the export writes and what the importer's two regular-expression splits read. */
module ImportSteps {
  import opened Text

  datatype Step = Step(stepNumber: nat, action: string, expectedResult: string)

  // ----- the writer -----

  /** `[action, expectedResult].filter(Boolean).join(" => ")`. */
  function PrintStep(s: Step): string {
    if s.expectedResult == "" then s.action
    else if s.action == "" then s.expectedResult
    else s.action + " => " + s.expectedResult
  }

  function PrintSteps(steps: seq<Step>): string {
    if steps == [] then ""
    else if |steps| == 1 then PrintStep(steps[0])
    else PrintStep(steps[0]) + " | " + PrintSteps(steps[1..])
  }

  // ----- the reader -----

  datatype Separator = BetweenSteps | Arrow

  /** The mark a separator is built around, with white space allowed on either side. */
  function Sign(sep: Separator): string {
    match sep
    case BetweenSteps => "|"
    case Arrow => "=>"
  }

  function LineBreak(s: string): nat {
    if "\r\n" <= s then 2 else if "\n" <= s then 1 else 0
  }

  /** How much of `s` a separator at its very start matches; 0 if none does. Between steps it is
      `/\r?\n|(?:\s*\|\s*)/`, within a step the arrow with optional white space. */
  function SeparatorAt(sep: Separator, s: string): (n: nat)
    ensures n <= |s|
  {
    var rest := TrimStart(s);
    if sep == BetweenSteps && LineBreak(s) > 0 then LineBreak(s)
    else if Sign(sep) <= rest then
      var after := TrimStart(rest[|Sign(sep)|..]);
      if |after| <= |s| then |s| - |after| else 0
    else 0
  }

  /** `s.split(separator)`. */
  function Split(sep: Separator, s: string): (r: seq<string>)
    ensures r != []
    decreases |s|
  {
    if s == "" then [""]
    else
      var n := SeparatorAt(sep, s);
      if n > 0 then [""] + Split(sep, s[n..])
      else var rest := Split(sep, s[1..]); [[s[0]] + rest[0]] + rest[1..]
  }

  function ReadStep(part: string, index: nat): Step {
    var pieces := Split(Arrow, part);
    Step(index + 1, Trim(pieces[0]), Trim(Join(pieces[1..], " => ")))
  }

  /** The parts from `index` on, numbered before the ones without an action are filtered out. */
  function ReadParts(parts: seq<string>, index: nat): seq<Step> {
    if parts == [] then []
    else
      var step := ReadStep(parts[0], index);
      (if step.action != "" then [step] else []) + ReadParts(parts[1..], index + 1)
  }

  /** The steps of a row: its Steps cell, or else its Action and Expected Result cells. */
  function StepsOf(stepsCell: string, actionCell: string, expectedCell: string): seq<Step> {
    if Trim(stepsCell) != "" then ReadParts(Split(BetweenSteps, Trim(stepsCell)), 0)
    else if Trim(actionCell) != "" then [Step(1, Trim(actionCell), Trim(expectedCell))]
    else []
  }

  // ----- the round trip -----

  /** No separator of either kind inside. */
  predicate Inert(s: string) {
    && Trimmed(s) && '\n' !in s && '|' !in s
    && forall i | 0 <= i < |s| - 1 :: !(s[i] == '=' && s[i + 1] == '>')
  }

  /** A result may hold arrows of its own, as long as each stands between single spaces: that is
      how the reader puts them back. */
  predicate Reassembles(result: string) {
    && Trimmed(result) && '\n' !in result && '|' !in result
    && Join(Split(Arrow, result), " => ") == result
  }

  predicate Printable(s: Step) {
    s.action != "" && Inert(s.action) && Reassembles(s.expectedResult)
  }

  predicate Numbered(steps: seq<Step>, from: nat) {
    forall i | 0 <= i < |steps| :: Printable(steps[i]) && steps[i].stepNumber == from + i + 1
  }

  /** White space inside a text ends before the text does. */
  lemma {:induction false} TrimStartInside(a: string, tail: string) returns (k: nat)
    requires a != "" && !IsSpace(a[|a| - 1])
    ensures k < |a| && TrimStart(a + tail) == a[k..] + tail
  {
    if IsSpace(a[0]) {
      assert (a + tail)[1..] == a[1..] + tail;
      var j := TrimStartInside(a[1..], tail);
      k := j + 1;
      assert a[1..][j..] == a[k..];
    } else {
      k := 0;
      assert a[0..] == a;
    }
  }

  /** What may follow a text without making a separator of its last character. */
  predicate Follows(sep: Separator, tail: string) {
    match sep
    case BetweenSteps => true
    case Arrow => tail == "" || tail[0] != '>'
  }

  /** No character of a text starts a separator. */
  predicate Quiet(sep: Separator, a: string) {
    match sep
    case BetweenSteps => '\n' !in a && '|' !in a
    case Arrow => forall i | 0 <= i < |a| - 1 :: !(a[i] == '=' && a[i + 1] == '>')
  }

  lemma NoSeparatorInside(sep: Separator, a: string, tail: string)
    requires a != "" && !IsSpace(a[|a| - 1]) && Quiet(sep, a) && Follows(sep, tail)
    ensures SeparatorAt(sep, a + tail) == 0
  {
    hide TrimStart, LineBreak, Sign, Quiet;
    var k := TrimStartInside(a, tail);
    NoSignInside(sep, a, tail, k);
    if sep == BetweenSteps { NoBreakInside(a, tail); }
  }

  lemma NoSignInside(sep: Separator, a: string, tail: string, k: nat)
    requires k < |a| && Quiet(sep, a) && Follows(sep, tail)
    ensures !(Sign(sep) <= a[k..] + tail)
  {
    var s := a[k..] + tail;
    assert s[0] == a[k] && (k + 1 < |a| ==> s[1] == a[k + 1]) && (k + 1 == |a| && tail != "" ==> s[1] == tail[0]);
    assert "=>" <= s ==> s[0] == '=' && s[1] == '>';
    assert "|" <= s ==> s[0] == '|';
  }

  lemma NoBreakInside(a: string, tail: string)
    requires a != "" && !IsSpace(a[|a| - 1]) && Quiet(BetweenSteps, a)
    ensures LineBreak(a + tail) == 0
  {
    var s := a + tail;
    assert s[0] == a[0] && (|a| > 1 ==> s[1] == a[1]);
    assert s[0] != '\n' && (|s| > 1 ==> s[0] != '\r' || s[1] != '\n');
  }

  /** A quiet text is copied up to what follows it. */
  lemma {:induction false} SplitCopies(sep: Separator, a: string, tail: string)
    requires a == "" || !IsSpace(a[|a| - 1])
    requires Quiet(sep, a) && Follows(sep, tail)
    ensures var rest := Split(sep, tail); Split(sep, a + tail) == [a + rest[0]] + rest[1..]
  {
    hide SeparatorAt, Split, Quiet, IsSpace, Follows;
    var rest := Split(sep, tail);
    if a == "" {
      assert a + tail == tail && "" + rest[0] == rest[0] && [rest[0]] + rest[1..] == rest;
    } else {
      NoSeparatorInside(sep, a, tail);
      assert (a + tail)[0] == a[0] && (a + tail)[1..] == a[1..] + tail;
      CharacterCopied(sep, a + tail);
      QuietTail(sep, a);
      SplitCopies(sep, a[1..], tail);
      assert [a[0]] + (a[1..] + rest[0]) == a + rest[0];
      assert ([a[1..] + rest[0]] + rest[1..])[1..] == rest[1..];
    }
  }

  lemma CharacterCopied(sep: Separator, s: string)
    requires s != "" && SeparatorAt(sep, s) == 0
    ensures var rest := Split(sep, s[1..]); Split(sep, s) == [[s[0]] + rest[0]] + rest[1..]
  {
  }

  lemma QuietTail(sep: Separator, a: string)
    requires a != "" && Quiet(sep, a)
    ensures Quiet(sep, a[1..])
  {
    assert forall i | 0 <= i < |a| - 1 :: a[1..][i] == a[i + 1];
  }

  /** A printed separator is read as one. */
  lemma SeparatorRead(sep: Separator, rest: string)
    requires rest == "" || !IsSpace(rest[0])
    ensures SeparatorAt(sep, " " + Sign(sep) + " " + rest) == |Sign(sep)| + 2
  {
    var tail := " " + rest;
    var s := Sign(sep) + tail;
    assert " " + Sign(sep) + " " + rest == " " + s;
    TrimStartSkips(" ", s);
    assert s[0] == Sign(sep)[0];
    assert TrimStart(s) == s && s[|Sign(sep)|..] == tail;
    TrimStartSkips(" ", rest);
  }

  lemma SplitAtSign(sep: Separator, a: string, rest: string)
    requires Trimmed(a) && Trimmed(rest) && Quiet(sep, a)
    ensures Split(sep, a + " " + Sign(sep) + " " + rest) == [a] + Split(sep, rest)
  {
    hide SeparatorAt, Sign, Quiet, IsSpace;
    var tail := " " + Sign(sep) + " " + rest;
    assert a + " " + Sign(sep) + " " + rest == a + tail;
    SeparatorRead(sep, rest);
    assert tail[|Sign(sep)| + 2..] == rest;
    assert Split(sep, tail) == [""] + Split(sep, rest);
    SplitCopies(sep, a, tail);
    assert a + "" == a && ([""] + Split(sep, rest))[1..] == Split(sep, rest);
  }

  lemma SplitWhole(sep: Separator, a: string)
    requires Trimmed(a) && Quiet(sep, a)
    ensures Split(sep, a) == [a]
  {
    SplitCopies(sep, a, "");
    assert a + "" == a;
  }

  lemma StepReads(s: Step, index: nat)
    requires Printable(s) && s.stepNumber == index + 1
    ensures ReadStep(PrintStep(s), index) == s
  {
    hide Split;
    TrimmedIsFixed(s.action);
    TrimmedIsFixed(s.expectedResult);
    if s.expectedResult == "" {
      SplitWhole(Arrow, s.action);
      assert [s.action][1..] == [];
    } else {
      assert PrintStep(s) == s.action + " " + Sign(Arrow) + " " + s.expectedResult;
      SplitAtSign(Arrow, s.action, s.expectedResult);
      assert ([s.action] + Split(Arrow, s.expectedResult))[1..] == Split(Arrow, s.expectedResult);
    }
  }

  lemma PrintedStep(s: Step)
    requires Printable(s)
    ensures PrintStep(s) != "" && Trimmed(PrintStep(s)) && Quiet(BetweenSteps, PrintStep(s))
  {
  }

  lemma {:induction false} PrintedSteps(steps: seq<Step>, from: nat)
    requires steps != [] && Numbered(steps, from)
    ensures PrintSteps(steps) != "" && Trimmed(PrintSteps(steps))
  {
    hide PrintStep;
    assert Printable(steps[0]);
    PrintedStep(steps[0]);
    if |steps| > 1 {
      assert forall i | 0 <= i < |steps[1..]| :: steps[1..][i] == steps[i + 1];
      PrintedSteps(steps[1..], from + 1);
    }
  }

  lemma {:induction false} PartsRead(steps: seq<Step>, from: nat)
    requires steps != [] && Numbered(steps, from)
    ensures ReadParts(Split(BetweenSteps, PrintSteps(steps)), from) == steps
  {
    hide PrintStep, ReadStep, Split, Printable, Trimmed, Quiet, Sign;
    var first := PrintStep(steps[0]);
    assert Printable(steps[0]);
    PrintedStep(steps[0]);
    StepReads(steps[0], from);
    NonEmptyAction(steps[0]);
    if |steps| == 1 {
      SplitWhole(BetweenSteps, first);
      assert [first][1..] == [] && steps == [steps[0]];
    } else {
      var rest := steps[1..];
      assert forall i | 0 <= i < |rest| :: rest[i] == steps[i + 1];
      PrintedSteps(rest, from + 1);
      PrintedWithSign(steps);
      SplitAtSign(BetweenSteps, first, PrintSteps(rest));
      PartsRead(rest, from + 1);
      var parts := Split(BetweenSteps, PrintSteps(rest));
      assert ([first] + parts)[0] == first && ([first] + parts)[1..] == parts;
      assert steps == [steps[0]] + rest;
    }
  }

  lemma PrintedWithSign(steps: seq<Step>)
    requires |steps| > 1
    ensures PrintSteps(steps) == PrintStep(steps[0]) + " " + Sign(BetweenSteps) + " " + PrintSteps(steps[1..])
  {
    hide PrintStep;
    assert PrintStep(steps[0]) + " | " == PrintStep(steps[0]) + " " + "|" + " ";
  }

  lemma NonEmptyAction(s: Step)
    requires Printable(s)
    ensures s.action != ""
  {
  }

  /** In particular a result without arrows does. */
  lemma InertReassembles(result: string)
    requires Inert(result)
    ensures Reassembles(result)
  {
    hide Split;
    SplitWhole(Arrow, result);
  }

  /** Printing the steps of a case and importing the cell gives the same steps back. */
  lemma StepsRoundTrip(steps: seq<Step>, actionCell: string, expectedCell: string)
    requires steps != [] && Numbered(steps, 0)
    ensures StepsOf(PrintSteps(steps), actionCell, expectedCell) == steps
  {
    hide ReadParts, Split;
    PrintedSteps(steps, 0);
    TrimmedIsFixed(PrintSteps(steps));
    PartsRead(steps, 0);
  }

  // ----- other ways to write the cell -----

  /** What may stand between two steps: the bar, with or without spaces, or a line break. */
  predicate IsBetween(sep: string) {
    sep == " | " || sep == "|" || sep == "\n" || sep == "\r\n"
  }

  function PrintWith(steps: seq<Step>, sep: string): string {
    if steps == [] then ""
    else if |steps| == 1 then PrintStep(steps[0])
    else PrintStep(steps[0]) + (sep + PrintWith(steps[1..], sep))
  }

  lemma BetweenRead(sep: string, rest: string)
    requires IsBetween(sep) && (rest == "" || (!IsSpace(rest[0]) && rest[0] != '|'))
    ensures SeparatorAt(BetweenSteps, sep + rest) == |sep|
  {
    var s := sep + rest;
    assert s[|sep|..] == rest;
    if sep == " | " {
      SeparatorRead(BetweenSteps, rest);
      assert s == " " + Sign(BetweenSteps) + " " + rest;
    } else if sep == "|" {
      assert s[0] == '|' && TrimStart(s) == s && s[1..] == rest && TrimStart(rest) == rest;
    } else {
      assert s[0] == sep[0] && (|sep| == 2 ==> s[1] == sep[1]);
    }
  }

  lemma {:induction false} PrintedWith(steps: seq<Step>, sep: string, from: nat)
    requires steps != [] && Numbered(steps, from)
    ensures PrintWith(steps, sep) != "" && Trimmed(PrintWith(steps, sep)) && PrintWith(steps, sep)[0] != '|'
  {
    hide PrintStep, IsSpace;
    assert Printable(steps[0]);
    PrintedStep(steps[0]);
    var first := PrintStep(steps[0]);
    assert first[0] in first;
    if |steps| > 1 {
      assert forall i | 0 <= i < |steps[1..]| :: steps[1..][i] == steps[i + 1];
      PrintedWith(steps[1..], sep, from + 1);
      var tail := PrintWith(steps[1..], sep);
      assert (first + (sep + tail))[0] == first[0];
      assert (first + (sep + tail))[|first| + |sep| + |tail| - 1] == tail[|tail| - 1];
    }
  }

  lemma {:induction false} PartsReadWith(steps: seq<Step>, sep: string, from: nat)
    requires steps != [] && Numbered(steps, from) && IsBetween(sep)
    ensures ReadParts(Split(BetweenSteps, PrintWith(steps, sep)), from) == steps
  {
    hide PrintStep, ReadStep, Split, SeparatorAt, Printable, Trimmed, Quiet, IsSpace, IsBetween;
    var first := PrintStep(steps[0]);
    assert Printable(steps[0]);
    PrintedStep(steps[0]);
    StepReads(steps[0], from);
    NonEmptyAction(steps[0]);
    if |steps| == 1 {
      SplitWhole(BetweenSteps, first);
      assert [first][1..] == [] && steps == [steps[0]];
    } else {
      var rest := steps[1..];
      assert forall i | 0 <= i < |rest| :: rest[i] == steps[i + 1];
      PartsReadWith(rest, sep, from + 1);
      PrintedWith(rest, sep, from + 1);
      var tail := PrintWith(rest, sep);
      TrimmedStart(tail);
      SplitBetween(first, sep, tail);
      var parts := Split(BetweenSteps, tail);
      assert ([first] + parts)[0] == first && ([first] + parts)[1..] == parts;
      assert steps == [steps[0]] + rest;
    }
  }

  lemma TrimmedStart(s: string)
    requires s != "" && Trimmed(s)
    ensures !IsSpace(s[0])
  {
  }

  lemma SplitBetween(a: string, sep: string, rest: string)
    requires a != "" && Trimmed(a) && Quiet(BetweenSteps, a) && IsBetween(sep)
    requires rest != "" && !IsSpace(rest[0]) && rest[0] != '|'
    ensures Split(BetweenSteps, a + (sep + rest)) == [a] + Split(BetweenSteps, rest)
  {
    hide SeparatorAt, Quiet, IsSpace;
    BetweenRead(sep, rest);
    assert (sep + rest)[|sep|..] == rest;
    assert Split(BetweenSteps, sep + rest) == [""] + Split(BetweenSteps, rest);
    SplitCopies(BetweenSteps, a, sep + rest);
    assert a + "" == a && ([""] + Split(BetweenSteps, rest))[1..] == Split(BetweenSteps, rest);
  }

  /** Steps on lines of their own, or between bars without spaces, are read as well. */
  lemma AnySeparatorReads(steps: seq<Step>, sep: string, actionCell: string, expectedCell: string)
    requires steps != [] && Numbered(steps, 0) && IsBetween(sep)
    ensures StepsOf(PrintWith(steps, sep), actionCell, expectedCell) == steps
  {
    hide ReadParts, Split, PrintWith, Trim;
    PartsReadWith(steps, sep, 0);
    PrintedWith(steps, sep, 0);
    TrimmedIsFixed(PrintWith(steps, sep));
  }

  /** A part without an action is no step, but it counts: the steps after it keep their places. */
  lemma {:induction false} GapsKeepTheirNumbers(parts: seq<string>, part: string, index: nat)
    ensures ReadParts(parts + [part], index)
         == ReadParts(parts, index)
            + var step := ReadStep(part, index + |parts|); if step.action == "" then [] else [step]
    ensures ReadStep(part, index).stepNumber == index + 1
  {
    hide ReadStep;
    if parts == [] {
      assert [] + [part] == [part] && [part][1..] == [];
      NumberOf(part, index);
    } else {
      assert (parts + [part])[0] == parts[0] && (parts + [part])[1..] == parts[1..] + [part];
      GapsKeepTheirNumbers(parts[1..], part, index + 1);
      NumberOf(part, index);
    }
  }

  lemma NumberOf(part: string, index: nat)
    ensures ReadStep(part, index).stepNumber == index + 1
  {
  }

  /** The Action and Expected Result cells are one step, and only when the Steps cell is blank. */
  lemma CellsRead(stepsCell: string, actionCell: string, expectedCell: string)
    requires AllSpace(stepsCell)
    ensures StepsOf(stepsCell, actionCell, expectedCell)
         == if AllSpace(actionCell) then [] else [Step(1, Trim(actionCell), Trim(expectedCell))]
  {
    hide Trim, ReadParts, Split;
    TrimIsEmptyIff(stepsCell);
    TrimIsEmptyIff(actionCell);
  }
}
