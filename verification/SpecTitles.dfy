/** e2e/scripts/push-to-tesbo.ts, the strings: how a spec's title is printed as the title of a test
    case, and how a stored title is read back into the id and the prose key that recognise it. */
module SpecTitles {
  import opened Options
  import opened Text

  /** `suitePath` is the describe path. */
  datatype Spec = Spec(file: string, title: string, suitePath: seq<string>)

  // ----- the leading id -----

  predicate IsIdChar(c: char) {
    IsDigit(c) || IsUpper(c) || IsLower(c) || c == '/' || c == '-'
  }

  function IdRun(t: string): (n: nat)
    ensures n <= |t| && forall i | 0 <= i < n :: IsIdChar(t[i])
  {
    if t != "" && IsIdChar(t[0]) then 1 + IdRun(t[1..]) else 0
  }

  function UpperRun(t: string): (n: nat)
    ensures n <= |t|
  {
    if t != "" && IsUpper(t[0]) then 1 + UpperRun(t[1..]) else 0
  }

  /** `[A-Z]{2,4}(?:-[A-Z])?-\d+[0-9A-Za-z/-]*`, on a run of id characters. */
  predicate IsSpecId(id: string) {
    var rest := id[UpperRun(id)..];
    && 2 <= UpperRun(id) <= 4
    && (  (|rest| > 1 && rest[0] == '-' && IsDigit(rest[1]))
       || (|rest| > 3 && rest[0] == '-' && IsUpper(rest[1]) && rest[2] == '-' && IsDigit(rest[3])))
  }

  datatype Parts = Parts(id: Option<string>, body: string)

  /** splitSpecId: the id, white space, and a body without line terminators; or no id. */
  function SplitSpecId(title: string): Parts {
    var n := IdRun(title);
    var body := TrimStart(title[n..]);
    if IsSpecId(title[..n]) && n < |title| && IsSpace(title[n])
      && (forall i | 0 <= i < |body| :: !IsLineTerminator(body[i]))
    then Parts(Some(title[..n]), body)
    else Parts(None, title)
  }

  // ----- a tag at the end -----

  /** `[^\]]*\]\s*$`. */
  predicate ClosesAtEnd(s: string) {
    s != "" && if s[0] == ']' then AllSpace(s[1..]) else ClosesAtEnd(s[1..])
  }

  predicate TagHere(s: string) {
    s != "" && s[0] == '[' && ClosesAtEnd(s[1..])
  }

  /** `s.replace(/\s*\[[^\]]*\]\s*$/, "")`: leftmost match, which runs to the end. */
  function StripTag(s: string): string {
    if s == "" || TagHere(TrimStart(s)) then "" else [s[0]] + StripTag(s[1..])
  }

  function Inside(s: string): string {
    if s == "" || s[0] == ']' then "" else [s[0]] + Inside(s[1..])
  }

  /** `/\[([^\]]+)\]\s*$/`, the captured text trimmed. */
  function TagOf(s: string): Option<string> {
    if s == "" then None
    else if TagHere(s) && s[1] != ']' then Some(Trim(Inside(s[1..])))
    else TagOf(s[1..])
  }

  // ----- prose keys -----

  function AsciiLower(c: char): char {
    if IsUpper(c) then (c as int + 32) as char else c
  }

  /** The string starts with `word`, in any case, and a white space after it. */
  predicate StartsWithWord(s: string, word: string) {
    && |s| > |word| && IsSpace(s[|word|])
    && forall i | 0 <= i < |word| :: AsciiLower(s[i]) == word[i]
  }

  /** `s.replace(/^word\s+/i, "")`. */
  function DropWord(s: string, word: string): string {
    if StartsWithWord(s, word) then TrimStart(s[|word|..]) else s
  }

  /** toLowerCase as far as `[a-z0-9]` can tell: besides A to Z, only the Kelvin sign and the
      dotted capital I have an ASCII letter in their lower case. */
  function LowerChar(c: char): string {
    if c == '\U{212A}' then "k" else if c == '\U{130}' then ['i', '\U{307}'] else [AsciiLower(c)]
  }

  function Lower(s: string): string {
    if s == "" then "" else LowerChar(s[0]) + Lower(s[1..])
  }

  predicate IsKeyChar(c: char) {
    IsLower(c) || IsDigit(c)
  }

  function SkipGap(s: string): (r: string)
    ensures |r| <= |s| && (r == "" || IsKeyChar(r[0]))
  {
    if s != "" && !IsKeyChar(s[0]) then SkipGap(s[1..]) else s
  }

  /** `s.replace(/[^a-z0-9]+/g, " ")`. */
  function Spaced(s: string): string
    decreases |s|
  {
    if s == "" then ""
    else if IsKeyChar(s[0]) then [s[0]] + Spaced(s[1..])
    else " " + Spaced(SkipGap(s[1..]))
  }

  function Squash(s: string): string {
    Trim(Spaced(Lower(s)))
  }

  /** The key of what is left after stripping. */
  function ProseKey(s: string): string {
    Squash(DropWord(DropWord(s, "verify that"), "verify"))
  }

  function NormalizeTitle(title: string): string {
    ProseKey(StripTag(title))
  }

  /** Every wording the spec could be stored under. */
  function CandidateKeys(spec: Spec): seq<string> {
    var body := SplitSpecId(spec.title).body;
    var context := Join(spec.suitePath, " ");
    [NormalizeTitle(body)] + if context != "" then [NormalizeTitle(context + " " + body)] else []
  }

  // ----- the printed title -----

  /** `s.replace(/\s+/g, " ")`. */
  function Collapse(s: string): string
    decreases |s|
  {
    if s == "" then ""
    else if IsSpace(s[0]) then TrimStartSplits(s); " " + Collapse(TrimStart(s))
    else [s[0]] + Collapse(s[1..])
  }

  function Tidy(s: string): string {
    Trim(Collapse(s))
  }

  function Context(spec: Spec): string {
    Trim(Join(spec.suitePath, " "))
  }

  function CaseTitle(spec: Spec): string {
    var parts := SplitSpecId(spec.title);
    match parts.id
    case Some(id) => Tidy("Verify that " + parts.body + " [" + id + "]")
    case None =>
      if Context(spec) != "" then Tidy("Verify " + Context(spec) + " " + parts.body)
      else Tidy("Verify that " + parts.body)
  }

  // ----- white space -----

  lemma {:induction false} CollapseAppend(a: string, b: string)
    requires a == "" || !IsSpace(a[|a| - 1])
    ensures Collapse(a + b) == Collapse(a) + Collapse(b)
    decreases |a|
  {
    hide TrimStart;
    if a == "" {
      assert a + b == b;
    } else if IsSpace(a[0]) {
      TrimStartSplits(a);
      TrimStartAppend(a, b);
      assert (a + b)[0] == a[0];
      CollapseAppend(TrimStart(a), b);
    } else {
      assert (a + b)[1..] == a[1..] + b;
      CollapseAppend(a[1..], b);
    }
  }

  lemma CollapseGap(w: string, s: string)
    requires w != "" && AllSpace(w)
    ensures Collapse(w + s) == " " + Collapse(TrimStart(s))
  {
    TrimStartSkips(w, s);
  }

  lemma {:induction false} CollapseWord(w: string)
    requires forall i | 0 <= i < |w| :: !IsSpace(w[i])
    ensures Collapse(w) == w
  {
    if w != "" { CollapseWord(w[1..]); }
  }

  lemma {:induction false} CollapseKeepsBlank(s: string)
    ensures AllSpace(Collapse(s)) <==> AllSpace(s)
    ensures TrimStart(Collapse(s)) == Collapse(TrimStart(s))
    decreases |s|
  {
    if s != "" {
      if IsSpace(s[0]) {
        TrimStartSplits(s);
        var t := TrimStart(s);
        CollapseKeepsBlank(t);
        TrimStartSkips(" ", Collapse(t));
        assert TrimStart(t) == t;
        BlankTail(s);
        assert Collapse(s) == " " + Collapse(t);
        assert AllSpace(" " + Collapse(t)) <==> AllSpace(Collapse(t)) by {
          assert (" " + Collapse(t))[1..] == Collapse(t);
          if AllSpace(" " + Collapse(t)) { AllSpacePart(" " + Collapse(t), 1); }
        }
      } else {
        assert Collapse(s)[0] == s[0];
      }
    }
  }

  lemma AllSpacePart(s: string, k: nat)
    requires AllSpace(s) && k <= |s|
    ensures AllSpace(s[k..])
  {
  }

  lemma BlankTail(s: string)
    ensures AllSpace(s) <==> AllSpace(TrimStart(s))
  {
    TrimStartSplits(s);
    var n := |s| - |TrimStart(s)|;
    if AllSpace(s) { AllSpacePart(s, n); assert s[n..] == TrimStart(s); }
  }

  /** A word in front of a string, with white space between them. */
  lemma TidyWord(w: string, s: string)
    requires w != "" && (forall i | 0 <= i < |w| :: !IsSpace(w[i])) && (s == "" || IsSpace(s[0]))
    ensures Tidy(w + s) == if Tidy(s) == "" then w else w + " " + Tidy(s)
  {
    CollapseAppend(w, s);
    CollapseWord(w);
    var rest := Collapse(s);
    assert (w + rest)[0] == w[0];
    assert TrimStart(w + rest) == w + rest;
    CollapseKeepsBlank(s);
    TidyIsEmptyIff(s);
    if AllSpace(s) {
      TrimEndSkips(w, rest);
      TrimmedIsFixed(w);
    } else {
      var t := Collapse(TrimStart(s));
      assert rest == " " + t;
      TrimStartSkips(" ", t);
      BlankTail(s);
      CollapseKeepsBlank(TrimStart(s));
      assert w + rest == (w + " ") + t;
      TrimEndKeeps(w + " ", t);
      TrimStartSplits(s);
      assert TrimStart(t) == t;
    }
  }

  lemma TidyIsEmptyIff(s: string)
    ensures Tidy(s) == "" <==> AllSpace(s)
  {
    CollapseKeepsBlank(s);
    TrimStartSplits(Collapse(s));
    TrimEndSplits(TrimStart(Collapse(s)));
    BlankTail(Collapse(s));
    if AllSpace(s) {
      assert TrimStart(Collapse(s)) == "";
    }
  }

  lemma TidySkips(w: string, s: string)
    requires AllSpace(w)
    ensures Tidy(w + s) == Tidy(s)
  {
    if w == "" {
      assert w + s == s;
    } else {
      CollapseGap(w, s);
      TrimStartSkips(" ", Collapse(TrimStart(s)));
      CollapseKeepsBlank(s);
      CollapseKeepsBlank(TrimStart(s));
      TrimStartSplits(s);
      assert TrimStart(TrimStart(s)) == TrimStart(s);
    }
  }

  /** A string that is not blank is its trimmed core between two stretches of white space. */
  lemma CoreSplit(c: string) returns (w: string, r: string)
    requires !AllSpace(c)
    ensures c == w + (Trim(c) + r) && AllSpace(w) && AllSpace(r)
    ensures Trim(c) != "" && Trimmed(Trim(c)) && (c != "" && !IsSpace(c[0]) ==> w == "")
  {
    hide TrimEnd;
    var t := TrimStart(c);
    TrimStartSplits(c);
    TrimEndSplits(t);
    TrimIsTrimmed(c);
    BlankTail(c);
    w, r := c[..|c| - |t|], t[|Trim(c)|..];
    assert Trim(c) + r == t;
  }

  /** Trimming the context before printing makes no difference to the tidy form. */
  lemma TidyContext(c: string, body: string)
    requires !AllSpace(c)
    ensures Tidy(Trim(c) + " " + body) == Tidy(c + " " + body)
  {
    hide Trim, Tidy, Collapse, IsSpace;
    var w, r := CoreSplit(c);
    var m := Trim(c);
    assert c + " " + body == w + (m + (r + " " + body));
    TidySkips(w, m + (r + " " + body));
    SameAfterCore(m, r, body);
  }

  lemma SameAfterCore(m: string, r: string, body: string)
    requires m != "" && Trimmed(m) && AllSpace(r)
    ensures Tidy(m + (r + " " + body)) == Tidy(m + " " + body)
  {
    hide TrimStart, TrimEnd, Collapse;
    CollapseAppend(m, r + " " + body);
    CollapseAppend(m, " " + body);
    assert r + " " + body == (r + " ") + body;
    CollapseGap(r + " ", body);
    CollapseGap(" ", body);
    assert m + " " + body == m + (" " + body);
  }
}
