/** Tesbo-Frontend/components/ImportTestCasesModal.tsx, the bookkeeping of an import: which rows
    are sent and which are reported, under which row numbers, and how the errors are grouped. */
module ImportRows {
  import opened Options

  type Cells = seq<string>

  datatype SentRow = SentRow(rowNumber: nat, cells: Cells)
  datatype RowError = RowError(row: nat, message: string)

  /** The line in the user's own spreadsheet: past the header, and 1-based. */
  function RowNumber(headerRowIndex: nat, index: nat): nat {
    headerRowIndex + index + 2
  }

  /** The rows to send among the first `n`: those for which no custom field is at fault. */
  function Accepted(rows: seq<Cells>, header: nat, n: nat, check: Cells -> Option<string>): seq<SentRow>
    requires n <= |rows|
  {
    if n == 0 then []
    else
      var before := Accepted(rows, header, n - 1, check);
      if check(rows[n - 1]).None? then before + [SentRow(RowNumber(header, n - 1), rows[n - 1])] else before
  }

  function Rejected(rows: seq<Cells>, header: nat, n: nat, check: Cells -> Option<string>): seq<RowError>
    requires n <= |rows|
  {
    if n == 0 then []
    else
      var before := Rejected(rows, header, n - 1, check);
      match check(rows[n - 1])
      case None => before
      case Some(message) => before + [RowError(RowNumber(header, n - 1), message)]
  }

  /** The row loop of handleImport; `check` is the custom-field validation of a row. */
  method CollectRows(rows: seq<Cells>, headerRowIndex: nat, check: Cells -> Option<string>)
    returns (sent: seq<SentRow>, localErrors: seq<RowError>)
    ensures sent == Accepted(rows, headerRowIndex, |rows|, check)
    ensures localErrors == Rejected(rows, headerRowIndex, |rows|, check)
  {
    sent, localErrors := [], [];
    for index := 0 to |rows|
      invariant sent == Accepted(rows, headerRowIndex, index, check)
      invariant localErrors == Rejected(rows, headerRowIndex, index, check)
    {
      var rowNumber := headerRowIndex + index + 2;
      var error := check(rows[index]);
      if error.Some? {
        localErrors := localErrors + [RowError(rowNumber, error.value)];
        continue;
      }
      sent := sent + [SentRow(rowNumber, rows[index])];
    }
  }

  /** What is sent is exactly the rows without a fault, under their own numbers and in order. */
  lemma {:induction false} SentExactly(rows: seq<Cells>, header: nat, n: nat, check: Cells -> Option<string>)
    requires n <= |rows|
    ensures var sent := Accepted(rows, header, n, check);
            && (forall s :: s in sent <==>
                  var i := s.rowNumber - header - 2; 0 <= i < n && s.cells == rows[i] && check(rows[i]).None?)
            && (forall i, j | 0 <= i < j < |sent| :: sent[i].rowNumber < sent[j].rowNumber)
  {
    if n > 0 {
      SentExactly(rows, header, n - 1, check);
      var before := Accepted(rows, header, n - 1, check);
      assert forall k | 0 <= k < |before| :: before[k] in before && before[k].rowNumber < RowNumber(header, n - 1);
    }
  }

  /** What is reported is exactly the rows at fault, with their message, in order. */
  lemma {:induction false} ReportedExactly(rows: seq<Cells>, header: nat, n: nat, check: Cells -> Option<string>)
    requires n <= |rows|
    ensures var errors := Rejected(rows, header, n, check);
            && (forall e :: e in errors <==>
                  var i := e.row - header - 2; 0 <= i < n && check(rows[i]) == Some(e.message))
            && (forall i, j | 0 <= i < j < |errors| :: errors[i].row < errors[j].row)
  {
    if n > 0 {
      ReportedExactly(rows, header, n - 1, check);
      var before := Rejected(rows, header, n - 1, check);
      assert forall k | 0 <= k < |before| :: before[k] in before && before[k].row < RowNumber(header, n - 1);
    }
  }

  /** So no row is lost, and no row is both sent and reported. */
  lemma {:induction false} RowsAreAccountedFor(rows: seq<Cells>, header: nat, check: Cells -> Option<string>)
    ensures var (sent, errors) := (Accepted(rows, header, |rows|, check), Rejected(rows, header, |rows|, check));
            && |sent| + |errors| == |rows|
            && (forall s, e | s in sent && e in errors :: s.rowNumber != e.row)
  {
    CountRows(rows, header, |rows|, check);
    SentExactly(rows, header, |rows|, check);
    ReportedExactly(rows, header, |rows|, check);
  }

  lemma {:induction false} CountRows(rows: seq<Cells>, header: nat, n: nat, check: Cells -> Option<string>)
    requires n <= |rows|
    ensures |Accepted(rows, header, n, check)| + |Rejected(rows, header, n, check)| == n
  {
    if n > 0 { CountRows(rows, header, n - 1, check); }
  }

  /** downloadErrorReport looks a row number up in the sheet again; outside the sheet it finds
      nothing. */
  function OriginalRow(rows: seq<Cells>, header: nat, row: int): Cells {
    var index := row - header - 2;
    if 0 <= index < |rows| then rows[index] else []
  }

  lemma OutsideFindsNothing(rows: seq<Cells>, header: nat, row: int)
    ensures row < header + 2 || row >= header + 2 + |rows| ==> OriginalRow(rows, header, row) == []
    ensures forall i | 0 <= i < |rows| :: OriginalRow(rows, header, header + 2 + i) == rows[i]
  {
  }

  lemma {:induction false} ReportFindsRow(rows: seq<Cells>, header: nat, n: nat, check: Cells -> Option<string>,
                                          e: RowError)
    requires n <= |rows| && e in Rejected(rows, header, n, check)
    ensures check(OriginalRow(rows, header, e.row)) == Some(e.message)
  {
    if e !in Rejected(rows, header, n - 1, check) {
      assert e == RowError(RowNumber(header, n - 1), check(rows[n - 1]).value);
    } else {
      ReportFindsRow(rows, header, n - 1, check, e);
    }
  }

  // ----- grouping the errors -----

  /** The rows reported with `message`, in order. */
  function RowsWith(errors: seq<RowError>, message: string): seq<nat> {
    if errors == [] then []
    else
      var n := |errors| - 1;
      if errors[n].message == message then RowsWith(errors[..n], message) + [errors[n].row]
      else RowsWith(errors[..n], message)
  }

  function Messages(errors: seq<RowError>): set<string> {
    set e | e in errors :: e.message
  }

  /** The reduce behind errorGroups. */
  method ErrorGroups(errors: seq<RowError>) returns (groups: map<string, seq<nat>>)
    ensures groups.Keys == Messages(errors)
    ensures forall message | message in groups :: groups[message] == RowsWith(errors, message)
  {
    groups := map[];
    for i := 0 to |errors|
      invariant groups.Keys == Messages(errors[..i])
      invariant forall message | message in groups :: groups[message] == RowsWith(errors[..i], message)
    {
      var e := errors[i];
      assert errors[..i + 1][..i] == errors[..i] && errors[..i + 1] == errors[..i] + [e];
      if e.message !in groups { NoRowsWith(errors[..i], e.message); }
      groups := groups[e.message := (if e.message in groups then groups[e.message] else []) + [e.row]];
    }
    assert errors[..|errors|] == errors;
  }

  lemma {:induction false} NoRowsWith(errors: seq<RowError>, message: string)
    requires message !in Messages(errors)
    ensures RowsWith(errors, message) == []
  {
    if errors != [] {
      var n := |errors| - 1;
      assert errors == errors[..n] + [errors[n]];
      NoRowsWith(errors[..n], message);
    }
  }

  /** hasRepeatedErrors, from the number of groups. */
  predicate HasRepeatedErrors(groupCount: nat, errorCount: nat) {
    0 < groupCount < errorCount
  }

  predicate Repeats(errors: seq<RowError>) {
    exists i, j | 0 <= i < j < |errors| :: errors[i].message == errors[j].message
  }

  lemma RepeatsWithLast(init: seq<RowError>, last: RowError)
    ensures Repeats(init + [last]) <==> Repeats(init) || last.message in Messages(init)
  {
    var errors, n := init + [last], |init|;
    assert forall i | 0 <= i < n :: errors[i] == init[i];
    if last.message in Messages(init) {
      var e :| e in init && e.message == last.message;
      var i :| 0 <= i < n && init[i] == e;
      assert errors[i].message == errors[n].message;
    }
    if Repeats(init) {
      var i, j :| 0 <= i < j < n && init[i].message == init[j].message;
      assert errors[i].message == errors[j].message;
    }
    if Repeats(errors) {
      var i, j :| 0 <= i < j < |errors| && errors[i].message == errors[j].message;
      assert init[i] in init;
      if j < n { assert init[i].message == init[j].message; }
    }
  }

  lemma {:induction false} CountMessages(errors: seq<RowError>)
    ensures |Messages(errors)| <= |errors|
    ensures |Messages(errors)| < |errors| <==> Repeats(errors)
  {
    hide Repeats;
    if errors == [] {
      NoRepeats();
    } else {
      var init, last := errors[..|errors| - 1], errors[|errors| - 1];
      assert errors == init + [last];
      CountMessages(init);
      RepeatsWithLast(init, last);
      assert Messages(errors) == Messages(init) + {last.message};
    }
  }

  lemma NoRepeats()
    ensures !Repeats([])
  {
  }

  /** It holds exactly when two errors share their message. */
  lemma RepeatedIff(errors: seq<RowError>)
    ensures HasRepeatedErrors(|Messages(errors)|, |errors|) <==> Repeats(errors)
  {
    CountMessages(errors);
    if Repeats(errors) { assert errors[0].message in Messages(errors); }
  }

  /** The rows reported with any other message. */
  function OtherRows(errors: seq<RowError>, message: string): seq<nat> {
    if errors == [] then []
    else
      var n := |errors| - 1;
      if errors[n].message != message then OtherRows(errors[..n], message) + [errors[n].row]
      else OtherRows(errors[..n], message)
  }

  function AllRows(errors: seq<RowError>): seq<nat> {
    if errors == [] then []
    else AllRows(errors[..|errors| - 1]) + [errors[|errors| - 1].row]
  }

  /** A group holds every row reported with its message and no other one. */
  lemma {:induction false} GroupIsExact(errors: seq<RowError>, message: string)
    ensures multiset(RowsWith(errors, message)) + multiset(OtherRows(errors, message)) == multiset(AllRows(errors))
    ensures forall row | row in RowsWith(errors, message) :: RowError(row, message) in errors
    ensures forall row | row in OtherRows(errors, message) ::
              exists e :: e in errors && e.row == row && e.message != message
  {
    if errors != [] {
      var init, last := errors[..|errors| - 1], errors[|errors| - 1];
      assert errors == init + [last];
      GroupIsExact(init, message);
    }
  }
}
