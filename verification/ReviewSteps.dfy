/** Tesbo-Frontend/lib/reviewBoard.ts: reading the steps of a test case in every shape they are
    stored in, and diffing an edited draft against the stored case. */
module ReviewSteps {
  import opened Options
  import opened Text

  /** A decoded JSON value; a number is carried as JavaScript prints it. */
  datatype Json =
    | Null
    | Bool(b: bool)
    | Number(printed: string)
    | Str(s: string)
    | Arr(items: seq<Json>)
    | Obj(fields: map<string, Json>)

  /** The properties of a stored test case that an edit can touch. */
  datatype Key = Title | Description | Preconditions | Postconditions | TestData | Steps

  type Record = map<Key, Json>

  datatype Step = Step(action: string, expected: string)

  // ----- reading -----

  function Scalar(value: Json): string {
    match value
    case Str(s) => Trim(s)
    case Number(printed) => printed
    case _ => ""
  }

  function Field(r: map<string, Json>, key: string): string {
    if key in r then Scalar(r[key]) else ""
  }

  function Or(a: string, b: string): string {
    if a != "" then a else b
  }

  function ReadItem(item: Json): Step {
    match item
    case Obj(fields) =>
      Step(Or(Or(Field(fields, "action"), Field(fields, "step")), Field(fields, "description")),
           Or(Field(fields, "expectedResult"), Field(fields, "expected")))
    case _ => Step(Scalar(item), "")
  }

  function ReadItems(items: seq<Json>): seq<Step> {
    if items == [] then []
    else
      var before, step := ReadItems(items[..|items| - 1]), ReadItem(items[|items| - 1]);
      if step.action != "" || step.expected != "" then before + [step] else before
  }

  /** The value a stored text stands for: decoded once, or twice when that yields a string that
      itself decodes to an array. */
  function Unwrapped(text: string, decode: string -> Option<Json>): Option<Json> {
    match decode(text)
    case Some(Str(inner)) =>
      var again := decode(Trim(inner));
      if again.Some? && again.value.Arr? then again else decode(text)
    case value => value
  }

  function Parsed(raw: Json, decode: string -> Option<Json>): seq<Step> {
    match raw
    case Arr(items) => ReadItems(items)
    case Str(s) =>
      var text := Trim(s);
      if text == "" then []
      else
        (match Unwrapped(text, decode)
         case Some(Arr(items)) => ReadItems(items)
         case Some(Str(plain)) => if Trim(plain) != "" then [Step(Trim(plain), "")] else []
         case _ => [Step(text, "")])
    case _ => []
  }

  /** parseSteps. `decode` is JSON.parse, `None` where it throws. */
  method ParseSteps(raw: Json, decode: string -> Option<Json>) returns (steps: seq<Step>)
    ensures steps == Parsed(raw, decode)
  {
    hide Trim, ReadItem;
    var list := raw;
    if raw.Str? {
      var text := Trim(raw.s);
      if text == "" { return []; }
      var value := decode(text);
      if value.Some? && value.value.Str? {
        var inner := decode(Trim(value.value.s));
        if inner.Some? && inner.value.Arr? { value := inner; }
      }
      if value.None? || !value.value.Arr? {
        var action := if value.Some? && value.value.Str? then Trim(value.value.s) else text;
        return if action != "" then [Step(action, "")] else [];
      }
      list := value.value;
    }
    if !list.Arr? { return []; }
    steps := [];
    for i := 0 to |list.items|
      invariant steps == ReadItems(list.items[..i])
    {
      assert list.items[..i + 1][..i] == list.items[..i];
      var step := ReadItem(list.items[i]);
      if step.action != "" || step.expected != "" { steps := steps + [step]; }
    }
    assert list.items[..|list.items|] == list.items;
  }

  /** An array, its JSON text and its doubly encoded JSON text read the same, when decoding inverts
      encoding and an encoded text has no white space at its ends. */
  lemma StoredShapesAgree(items: seq<Json>, once: string, twice: string, decode: string -> Option<Json>)
    requires once != "" && Trimmed(once) && decode(once) == Some(Arr(items))
    requires twice != "" && Trimmed(twice) && decode(twice) == Some(Str(once))
    ensures Parsed(Str(once), decode) == Parsed(Arr(items), decode)
    ensures Parsed(Str(twice), decode) == Parsed(Arr(items), decode)
  {
    TrimmedIsFixed(once);
    TrimmedIsFixed(twice);
  }

  // ----- the edit diff -----

  datatype Draft = Draft(title: string, description: string, preconditions: string,
                         postconditions: string, testData: string, steps: seq<Step>)

  /** The texts, in the order in which the source compares them. */
  const TEXTS := [Title, Description, Preconditions, Postconditions, TestData]

  function TextOf(draft: Draft, key: Key): string {
    match key
    case Title => draft.title
    case Description => draft.description
    case Preconditions => draft.preconditions
    case Postconditions => draft.postconditions
    case TestData => draft.testData
    case Steps => ""
  }

  datatype SavedStep = SavedStep(stepNumber: nat, action: string, expectedResult: string)

  /** Only the properties to send. */
  datatype Patch = Patch(texts: map<Key, string>, steps: Option<seq<SavedStep>>)

  const NOTHING := Patch(map[], None)

  function Before(original: Record, key: Key): string {
    if key in original && original[key].Str? then original[key].s else ""
  }

  predicate NotBlank(s: Step) {
    Trim(s.action) != "" || Trim(s.expected) != ""
  }

  /** The steps worth saving among the first ones, numbered after filtering. */
  function ToSave(steps: seq<Step>): (r: seq<SavedStep>) {
    if steps == [] then []
    else
      var before, last := ToSave(steps[..|steps| - 1]), steps[|steps| - 1];
      if NotBlank(last) then before + [SavedStep(|before| + 1, last.action, last.expected)] else before
  }

  function StoredSteps(original: Record, decode: string -> Option<Json>): seq<Step> {
    Parsed(if Steps in original then original[Steps] else Null, decode)
  }

  /** The first `n` texts, sent only where they differ. */
  function Changes(original: Record, draft: Draft, n: nat): map<Key, string>
    requires n <= |TEXTS|
  {
    if n == 0 then map[]
    else
      var before, key := Changes(original, draft, n - 1), TEXTS[n - 1];
      if TextOf(draft, key) != Before(original, key) then before[key := TextOf(draft, key)] else before
  }

  function Diff(original: Record, draft: Draft, decode: string -> Option<Json>): Patch {
    Patch(Changes(original, draft, |TEXTS|),
          if StoredSteps(original, decode) == draft.steps then None else Some(ToSave(draft.steps)))
  }

  /** `draft.steps.filter(…).map(…)`. */
  method SaveSteps(steps: seq<Step>) returns (saved: seq<SavedStep>)
    ensures saved == ToSave(steps)
  {
    saved := [];
    for i := 0 to |steps|
      invariant saved == ToSave(steps[..i])
    {
      assert steps[..i + 1][..i] == steps[..i];
      if Trim(steps[i].action) != "" || Trim(steps[i].expected) != "" {
        saved := saved + [SavedStep(|saved| + 1, steps[i].action, steps[i].expected)];
      }
    }
    assert steps[..|steps|] == steps;
  }

  /** changedEditFields. */
  method ChangedEditFields(original: Record, draft: Draft, decode: string -> Option<Json>) returns (out: Patch)
    ensures out == Diff(original, draft, decode)
  {
    hide ToSave, Parsed;
    out := NOTHING;
    for i := 0 to |TEXTS|
      invariant out == Patch(Changes(original, draft, i), None)
    {
      var key := TEXTS[i];
      var before := if key in original && original[key].Str? then original[key].s else "";
      if TextOf(draft, key) != before { out := out.(texts := out.texts[key := TextOf(draft, key)]); }
    }
    var before := ParseSteps(if Steps in original then original[Steps] else Null, decode);
    if before != draft.steps {
      var saved := SaveSteps(draft.steps);
      out := out.(steps := Some(saved));
    }
  }

  /** The draft the editor opens with. */
  function DraftOf(original: Record, decode: string -> Option<Json>): Draft {
    Draft(Before(original, Title), Before(original, Description), Before(original, Preconditions),
          Before(original, Postconditions), Before(original, TestData), StoredSteps(original, decode))
  }

  /** The patch is empty exactly for the draft the editor opened with. */
  lemma NothingToSendIff(original: Record, draft: Draft, decode: string -> Option<Json>)
    ensures Diff(original, draft, decode) == NOTHING <==> draft == DraftOf(original, decode)
  {
    hide StoredSteps, ToSave, Before;
    ChangesNothingIff(original, draft, |TEXTS|);
    if Changes(original, draft, |TEXTS|) == map[] {
      assert TEXTS[0] == Title && TEXTS[1] == Description && TEXTS[2] == Preconditions;
      assert TEXTS[3] == Postconditions && TEXTS[4] == TestData;
      assert TextOf(draft, Title) == draft.title && TextOf(draft, Description) == draft.description
          && TextOf(draft, Preconditions) == draft.preconditions
            && TextOf(draft, Postconditions) == draft.postconditions
          && TextOf(draft, TestData) == draft.testData;
    }
  }

  lemma {:induction false} ChangesNothingIff(original: Record, draft: Draft, n: nat)
    requires n <= |TEXTS|
    ensures Changes(original, draft, n) == map[] <==>
              forall i | 0 <= i < n :: TextOf(draft, TEXTS[i]) == Before(original, TEXTS[i])
  {
    hide TextOf, Before;
    if n > 0 {
      ChangesNothingIff(original, draft, n - 1);
      assert TextOf(draft, TEXTS[n - 1]) != Before(original, TEXTS[n - 1]) ==>
        TEXTS[n - 1] in Changes(original, draft, n);
    }
  }

  /** A changed text is sent as the draft has it, and only texts are. */
  lemma {:induction false} ChangesHold(original: Record, draft: Draft, n: nat)
    requires n <= |TEXTS|
    ensures var sent := Changes(original, draft, n);
            && (forall key | key in sent :: key != Steps && sent[key] == TextOf(draft, key))
            && (forall i | 0 <= i < n && TEXTS[i] !in sent :: TextOf(draft, TEXTS[i]) == Before(original, TEXTS[i]))
  {
    hide TextOf, Before;
    if n > 0 {
      ChangesHold(original, draft, n - 1);
      NotSteps(n - 1);
    }
  }

  lemma NotSteps(i: nat)
    requires i < |TEXTS|
    ensures TEXTS[i] != Steps
  {
  }

  // ----- what is read and what is sent, piece by piece -----

  /** The text a property holds: a string without its edge spaces, or a number as it prints. */
  ghost predicate Holds(fields: map<string, Json>, key: string, text: string) {
    && text != "" && key in fields
    && ((fields[key].Str? && Trim(fields[key].s) == text) || (fields[key].Number? && fields[key].printed == text))
  }

  /** No text: the property is missing, blank, or neither a string nor a number. */
  ghost predicate Lacks(fields: map<string, Json>, key: string) {
    key in fields ==>
      match fields[key]
      case Str(s) => AllSpace(s)
      case Number(printed) => printed == ""
      case _ => true
  }

  lemma FieldIs(fields: map<string, Json>, key: string)
    ensures Lacks(fields, key) <==> Field(fields, key) == ""
    ensures forall text: string :: Holds(fields, key, text) <==> text != "" && Field(fields, key) == text
  {
    hide Trim;
    if key in fields && fields[key].Str? { TrimIsEmptyIff(fields[key].s); }
  }

  /** An object's action is the first of its action, step and description that has a text, and its
      expected result the first of expectedResult and expected; anything else is an action by itself. */
  lemma ItemReads(item: Json)
    ensures item.Obj? ==>
      var step, f := ReadItem(item), item.fields;
      && (if !Lacks(f, "action") then Holds(f, "action", step.action)
          else if !Lacks(f, "step") then Holds(f, "step", step.action)
          else if !Lacks(f, "description") then Holds(f, "description", step.action)
          else step.action == "")
      && (if !Lacks(f, "expectedResult") then Holds(f, "expectedResult", step.expected)
          else if !Lacks(f, "expected") then Holds(f, "expected", step.expected)
          else step.expected == "")
    ensures item.Str? ==> ReadItem(item) == Step(Trim(item.s), "")
    ensures item.Number? ==> ReadItem(item) == Step(item.printed, "")
    ensures item.Null? || item.Bool? || item.Arr? ==> ReadItem(item) == Step("", "")
  {
    hide Trim, Lacks, Holds, Field;
    if item.Obj? {
      FieldIs(item.fields, "action");
      FieldIs(item.fields, "step");
      FieldIs(item.fields, "description");
      FieldIs(item.fields, "expectedResult");
      FieldIs(item.fields, "expected");
    }
  }

  /** The steps of an array, in order, without those that say nothing. */
  lemma {:induction false} ItemsRead(items: seq<Json>)
    ensures ReadItems([]) == []
    ensures items != [] ==>
      var first := ReadItem(items[0]);
      ReadItems(items) == (if first == Step("", "") then [] else [first]) + ReadItems(items[1..])
  {
    hide ReadItem;
    if |items| == 1 {
      assert items[..0] == [] && items[1..] == [];
    } else if |items| > 1 {
      var n := |items| - 1;
      ItemsRead(items[..n]);
      assert items[..n][1..] == items[1..][..n - 1] && items[1..][n - 1] == items[n];
    }
  }

  /** A text that is no array, decoded or decoded twice, is one step: what a string stands for, or the
      text itself; a blank one is no step, and neither is a value that is no text. */
  lemma PlainTextReads(s: string, decode: string -> Option<Json>)
    ensures AllSpace(s) ==> Parsed(Str(s), decode) == []
    ensures !AllSpace(s) && (decode(Trim(s)).None? || !(decode(Trim(s)).value.Str? || decode(Trim(s)).value.Arr?)) ==>
      Parsed(Str(s), decode) == [Step(Trim(s), "")]
    ensures !AllSpace(s) && decode(Trim(s)).Some? && decode(Trim(s)).value.Str? ==>
      var plain := Trim(decode(Trim(s)).value.s);
      !(decode(plain).Some? && decode(plain).value.Arr?) ==>
        Parsed(Str(s), decode) == if plain == "" then [] else [Step(plain, "")]
    ensures Parsed(Null, decode) == []
    ensures forall b: bool :: Parsed(Bool(b), decode) == []
    ensures forall printed: string :: Parsed(Number(printed), decode) == []
    ensures forall fields: map<string, Json> :: Parsed(Obj(fields), decode) == []
  {
    TrimIsEmptyIff(s);
  }

  /** The steps with a text in them, as they were typed. */
  function Worth(steps: seq<Step>): seq<Step> {
    if steps == [] then []
    else (if AllSpace(steps[0].action) && AllSpace(steps[0].expected) then [] else [steps[0]]) + Worth(steps[1..])
  }

  lemma {:induction false} WorthLast(steps: seq<Step>, s: Step)
    ensures Worth(steps + [s])
         == Worth(steps) + if AllSpace(s.action) && AllSpace(s.expected) then [] else [s]
  {
    hide AllSpace;
    if steps == [] {
      assert [] + [s] == [s] && [s][1..] == [];
    } else {
      assert (steps + [s])[0] == steps[0] && (steps + [s])[1..] == steps[1..] + [s];
      WorthLast(steps[1..], s);
    }
  }

  /** Exactly those are sent, as typed and in order, numbered from one without gaps. */
  lemma {:induction false} SavedAre(steps: seq<Step>)
    ensures |ToSave(steps)| == |Worth(steps)|
    ensures forall i | 0 <= i < |ToSave(steps)| ::
      ToSave(steps)[i] == SavedStep(i + 1, Worth(steps)[i].action, Worth(steps)[i].expected)
  {
    hide AllSpace, Trim;
    if steps != [] {
      var n := |steps| - 1;
      SavedAre(steps[..n]);
      assert steps == steps[..n] + [steps[n]];
      WorthLast(steps[..n], steps[n]);
      TrimIsEmptyIff(steps[n].action);
      TrimIsEmptyIff(steps[n].expected);
    }
  }

  // ----- saving and diffing again -----

  function SavedItem(s: SavedStep): Json {
    Obj(map["stepNumber" := Number(Digits(s.stepNumber)), "action" := Str(s.action),
      "expectedResult" := Str(s.expectedResult)])
  }

  function SavedItems(steps: seq<SavedStep>): (r: seq<Json>)
    ensures |r| == |steps|
  {
    if steps == [] then [] else SavedItems(steps[..|steps| - 1]) + [SavedItem(steps[|steps| - 1])]
  }

  /** The record after the server stored the patch. */
  function Apply(original: Record, patch: Patch): Record {
    var texts := original + map key | key in patch.texts :: Str(patch.texts[key]);
    if patch.steps.Some? then texts[Steps := Arr(SavedItems(patch.steps.value))] else texts
  }

  /** Steps as the reader would have produced them: trimmed, and none of them blank. */
  predicate Tidy(steps: seq<Step>) {
    forall i | 0 <= i < |steps| ::
      Trimmed(steps[i].action) && Trimmed(steps[i].expected) && (steps[i].action != "" || steps[i].expected != "")
  }

  function TrimStep(s: Step): Step {
    Step(Trim(s.action), Trim(s.expected))
  }

  /** What reading the saved steps gives: the non-blank ones, trimmed. */
  function Tidied(steps: seq<Step>): seq<Step> {
    if steps == [] then []
    else
      var before, last := Tidied(steps[..|steps| - 1]), steps[|steps| - 1];
      if NotBlank(last) then before + [TrimStep(last)] else before
  }

  lemma {:induction false} SavedReadsTidied(steps: seq<Step>)
    ensures ReadItems(SavedItems(ToSave(steps))) == Tidied(steps)
  {
    hide Trim, ReadItem, SavedItem, NotBlank, TrimStep;
    if steps != [] {
      var init, last := steps[..|steps| - 1], steps[|steps| - 1];
      SavedReadsTidied(init);
      if NotBlank(last) {
        var saved := ToSave(steps);
        SavedStepReads(last, |saved|);
        assert saved[..|saved| - 1] == ToSave(init);
        var items := SavedItems(saved);
        assert items[..|items| - 1] == SavedItems(ToSave(init)) && items[|items| - 1] == SavedItem(saved[|saved| - 1]);
      }
    }
  }

  lemma SavedStepReads(s: Step, n: nat)
    requires NotBlank(s)
    ensures ReadItem(SavedItem(SavedStep(n, s.action, s.expected))) == TrimStep(s)
    ensures TrimStep(s).action != "" || TrimStep(s).expected != ""
  {
    hide Trim, Digits;
  }

  lemma {:induction false} TidiedIsSameIff(steps: seq<Step>)
    ensures |Tidied(steps)| <= |steps|
    ensures Tidied(steps) == steps <==> Tidy(steps)
  {
    hide Trim;
    if steps != [] {
      var init, last := steps[..|steps| - 1], steps[|steps| - 1];
      assert steps == init + [last];
      TidiedIsSameIff(init);
      TidyStep(last);
      assert Tidy(steps) <==> Tidy(init) && Tidy([last]) by {
        assert forall i | 0 <= i < |init| :: steps[i] == init[i];
      }
      if Tidied(steps) == steps {
        assert |Tidied(steps)| == |init| + 1;
        assert Tidied(steps)[..|init|] == Tidied(init);
        assert Tidied(steps)[|init|] == TrimStep(last);
      }
    }
  }

  lemma TidyStep(s: Step)
    ensures Tidy([s]) <==> NotBlank(s) && TrimStep(s) == s
  {
    assert [s][0] == s;
    TrimIsTrimmed(s.action);
    TrimIsTrimmed(s.expected);
    if Trimmed(s.action) { TrimmedIsFixed(s.action); }
    if Trimmed(s.expected) { TrimmedIsFixed(s.expected); }
  }

  /** After saving, the stored texts are the draft's. */
  lemma AppliedTexts(original: Record, draft: Draft, decode: string -> Option<Json>)
    ensures Changes(Apply(original, Diff(original, draft, decode)), draft, |TEXTS|) == map[]
  {
    hide ToSave, SavedItems, StoredSteps, TextOf, Changes;
    var saved := Apply(original, Diff(original, draft, decode));
    ChangesHold(original, draft, |TEXTS|);
    forall i | 0 <= i < |TEXTS| ensures TextOf(draft, TEXTS[i]) == Before(saved, TEXTS[i]) {
      NotSteps(i);
      assert TEXTS[i] in Changes(original, draft, |TEXTS|) || Before(saved, TEXTS[i]) == Before(original, TEXTS[i]);
    }
    ChangesNothingIff(saved, draft, |TEXTS|);
  }

  /** And the stored steps are the draft's, tidied if they had to be sent. */
  lemma AppliedSteps(original: Record, draft: Draft, decode: string -> Option<Json>)
    ensures StoredSteps(Apply(original, Diff(original, draft, decode)), decode) ==
              if StoredSteps(original, decode) == draft.steps then draft.steps else Tidied(draft.steps)
  {
    hide Tidied, Trim, Before, TextOf, ReadItem, SavedItem;
    SavedReadsTidied(draft.steps);
    ChangesHold(original, draft, |TEXTS|);
    var patch := Diff(original, draft, decode);
    var saved := Apply(original, patch);
    assert Steps !in patch.texts;
    if patch.steps.None? {
      assert Steps in saved <==> Steps in original;
    } else {
      assert saved[Steps] == Arr(SavedItems(ToSave(draft.steps)));
    }
  }

  /** Diffing again after saving finds nothing exactly when the steps were left alone or the
      draft's steps are trimmed and none of them is blank. */
  lemma SaveSettlesIff(original: Record, draft: Draft, decode: string -> Option<Json>)
    ensures Diff(Apply(original, Diff(original, draft, decode)), draft, decode) == NOTHING
       <==> StoredSteps(original, decode) == draft.steps || Tidy(draft.steps)
  {
    hide Apply, StoredSteps, Tidied, ToSave;
    AppliedTexts(original, draft, decode);
    AppliedSteps(original, draft, decode);
    TidiedIsSameIff(draft.steps);
  }
}
