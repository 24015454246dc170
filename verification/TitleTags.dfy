/** e2e/scripts/push-to-tesbo.ts: the `[ID]` that caseTitle appends is the tag that stageIndex reads
    back, exactly when the spec's prose leaves no bracket open. */
module TitleTags {
  import opened Options
  import opened Text
  import opened SpecTitles

  /** A `[` with no `]` after it. */
  predicate LeavesOpen(s: string) {
    s != "" && ((s[0] == '[' && ']' !in s[1..]) || LeavesOpen(s[1..]))
  }

  lemma {:induction false} OpenAppend(a: string, b: string)
    ensures ']' !in b ==> (LeavesOpen(a + b) <==> LeavesOpen(a) || LeavesOpen(b))
    ensures '[' !in a ==> (LeavesOpen(a + b) <==> LeavesOpen(b))
  {
    if a == "" {
      assert a + b == b;
    } else {
      assert (a + b)[0] == a[0] && (a + b)[1..] == a[1..] + b && a == [a[0]] + a[1..];
      OpenAppend(a[1..], b);
    }
  }

  lemma NoOpenWithout(s: string)
    requires '[' !in s
    ensures !LeavesOpen(s)
  {
    OpenAppend(s, "");
    assert s + "" == s;
  }

  lemma BlankHasNoBracket(w: string)
    requires AllSpace(w)
    ensures '[' !in w && ']' !in w && !LeavesOpen(w)
  {
    NoOpenWithout(w);
  }

  lemma {:induction false} CollapseKeepsBrackets(s: string, c: char)
    requires !IsSpace(c)
    ensures c in Collapse(s) <==> c in s
    decreases |s|
  {
    if s != "" {
      if IsSpace(s[0]) {
        TrimStartSplits(s);
        var n := |s| - |TrimStart(s)|;
        CollapseKeepsBrackets(TrimStart(s), c);
        assert s == s[..n] + TrimStart(s);
      } else {
        assert s == [s[0]] + s[1..];
        CollapseKeepsBrackets(s[1..], c);
      }
    }
  }

  lemma {:induction false} CollapseKeepsOpen(s: string)
    ensures LeavesOpen(Collapse(s)) <==> LeavesOpen(s)
    decreases |s|
  {
    if s != "" {
      if IsSpace(s[0]) {
        TrimStartSplits(s);
        var t := TrimStart(s);
        var w := s[..|s| - |t|];
        CollapseKeepsOpen(t);
        BlankHasNoBracket(w);
        OpenAppend(w, t);
        OpenAppend(" ", Collapse(t));
      } else {
        CollapseKeepsOpen(s[1..]);
        CollapseKeepsBrackets(s[1..], ']');
        assert Collapse(s)[0] == s[0] && Collapse(s)[1..] == Collapse(s[1..]);
      }
    }
  }

  lemma {:induction false} ClosesInside(a: string, b: string)
    requires !AllSpace(b) && ']' in a
    ensures !ClosesAtEnd(a + b)
  {
    assert (a + b)[0] == a[0] && (a + b)[1..] == a[1..] + b;
    if a[0] == ']' {
      var k :| 0 <= k < |b| && !IsSpace(b[k]);
      assert (a[1..] + b)[|a| - 1 + k] == b[k];
    } else {
      assert a == [a[0]] + a[1..];
      ClosesInside(a[1..], b);
    }
  }

  lemma {:induction false} ClosesAfter(a: string, b: string)
    requires ']' !in a
    ensures ClosesAtEnd(a + b) == ClosesAtEnd(b)
  {
    hide AllSpace;
    if a == "" {
      assert a + b == b;
    } else {
      assert a[0] != ']' && (a + b)[0] == a[0] && (a + b)[1..] == a[1..] + b;
      ClosesAfter(a[1..], b);
    }
  }

  lemma {:induction false} InsideAfter(a: string, b: string)
    requires ']' !in a
    ensures Inside(a + b) == a + Inside(b)
  {
    if a == "" {
      assert a + b == b;
    } else {
      assert a[0] != ']' && (a + b)[0] == a[0] && (a + b)[1..] == a[1..] + b;
      InsideAfter(a[1..], b);
    }
  }

  /** With nothing left open in front, the tag at the end is found. */
  lemma {:induction false} TagFound(q: string, tail: string)
    requires !LeavesOpen(q) && !AllSpace(tail)
    ensures TagOf(q + tail) == TagOf(tail)
  {
    if q == "" {
      assert q + tail == tail;
    } else {
      assert (q + tail)[0] == q[0] && (q + tail)[1..] == q[1..] + tail;
      if q[0] == '[' { ClosesInside(q[1..], tail); }
      TagFound(q[1..], tail);
    }
  }

  predicate IsTagText(id: string) {
    id != "" && Trimmed(id) && '[' !in id && ']' !in id
  }

  /** The tag as caseTitle appends it. */
  function Bracketed(id: string): string {
    " [" + id + "]"
  }

  lemma BracketedReads(id: string)
    requires IsTagText(id)
    ensures TagOf(Bracketed(id)) == Some(id) && !AllSpace(Bracketed(id))
  {
    var s := Bracketed(id);
    var rest := id + "]";
    assert s[1..] == "[" + rest && s[1..][1..] == rest;
    ClosesAfter(id, "]");
    InsideAfter(id, "]");
    assert Inside("]") == "" && id + "" == id;
    assert rest[0] == id[0] && TagHere(s[1..]);
    TrimmedIsFixed(id);
    assert s[1] == '[';
  }

  /** With a bracket left open, the tag read back starts at that bracket. */
  lemma {:induction false} TagSwallowed(q: string, id: string)
    requires LeavesOpen(q) && IsTagText(id)
    ensures TagOf(q + Bracketed(id)).Some? && '[' in TagOf(q + Bracketed(id)).value
  {
    var tail := Bracketed(id);
    var s := q + tail;
    assert s[0] == q[0] && s[1..] == q[1..] + tail;
    if q[0] == '[' && ']' !in q[1..] {
      var before := q[1..] + " [" + id;
      assert s[1..] == before + "]";
      assert ']' !in before;
      ClosesAfter(before, "]");
      InsideAfter(before, "]");
      assert Inside("]") == "" && before + "" == before && s[1] == before[0];
      assert before[|q[1..]| + 1] == '[';
      CoreKeepsBracket(before);
    } else {
      if q[0] == '[' { BracketedReads(id); ClosesInside(q[1..], tail); }
      TagSwallowed(q[1..], id);
    }
  }

  lemma CoreKeepsBracket(before: string)
    requires '[' in before
    ensures '[' in Trim(before)
  {
    hide Trim;
    var k :| 0 <= k < |before| && before[k] == '[';
    assert !IsSpace(before[k]);
    var w, r := CoreSplit(before);
    BlankHasNoBracket(w);
    BlankHasNoBracket(r);
    assert '[' in w + (Trim(before) + r);
  }

  /** The id of a spec can serve as a tag. */
  lemma SpecIdIsTagText(title: string)
    requires SplitSpecId(title).id.Some?
    ensures IsTagText(SplitSpecId(title).id.value)
    ensures forall i | 0 <= i < |SplitSpecId(title).id.value| :: !IsSpace(SplitSpecId(title).id.value[i])
  {
    var n := IdRun(title);
    var id := title[..n];
    assert forall i | 0 <= i < n :: IsIdChar(id[i]) && !IsSpace(id[i]) && id[i] != '[' && id[i] != ']';
    assert UpperRun("") == 0;
  }

  /** The printed title of a spec with an id: its tidied prose, then the bracketed id. */
  lemma TitleShape(spec: Spec) returns (q: string)
    requires SplitSpecId(spec.title).id.Some?
    ensures CaseTitle(spec) == q + Bracketed(SplitSpecId(spec.title).id.value)
    ensures LeavesOpen(q) <==> LeavesOpen(SplitSpecId(spec.title).body)
  {
    hide SplitSpecId, Tidy, LeavesOpen, IsTagText;
    var parts := SplitSpecId(spec.title);
    var tag := "[" + parts.id.value + "]";
    var p := "Verify that " + parts.body;
    SpecIdIsTagText(spec.title);
    assert p + " [" + parts.id.value + "]" == p + " " + tag;
    assert p[0] == 'V' && !IsSpace('V');
    q := ProseThenTag(p, tag);
    assert q + " " + tag == q + Bracketed(parts.id.value);
    OpenAppend("Verify that ", parts.body);
  }

  lemma ProseThenTag(p: string, tag: string) returns (q: string)
    requires p != "" && !IsSpace(p[0]) && tag != "" && forall i | 0 <= i < |tag| :: !IsSpace(tag[i])
    ensures Tidy(p + " " + tag) == q + " " + tag && (LeavesOpen(q) <==> LeavesOpen(p))
  {
    hide Tidy, Collapse, TrimStart, TrimEnd, LeavesOpen;
    var w, r := CoreSplit(p);
    var m := Trim(p);
    assert w == "" && p == m + r by { assert w + (m + r) == m + r; }
    q := Collapse(m);
    assert p + " " + tag == m + (r + " " + tag);
    SameAfterCore(m, r, tag);
    TidyWithTag(m, tag);
    CollapseKeepsOpen(m);
    BlankHasNoBracket(r);
    OpenAppend(m, r);
  }

  lemma TidyWithTag(m: string, tag: string)
    requires m != "" && Trimmed(m) && tag != "" && forall i | 0 <= i < |tag| :: !IsSpace(tag[i])
    ensures Tidy(m + " " + tag) == Collapse(m) + " " + tag
  {
    hide TrimStart, TrimEnd;
    assert m + " " + tag == m + (" " + tag);
    CollapseAppend(m, " " + tag);
    CollapseGap(" ", tag);
    CollapseWord(tag);
    TrimmedIsFixed(tag);
    var s := Collapse(m) + (" " + tag);
    assert Collapse(m)[0] == m[0] && s[|s| - 1] == tag[|tag| - 1];
    TrimmedIsFixed(s);
  }

  /** For a spec with an id: the tag read back from its printed title is its id, if and only if its
      prose leaves no bracket open. */
  lemma TagReadsBackIff(spec: Spec)
    requires SplitSpecId(spec.title).id.Some?
    ensures TagOf(CaseTitle(spec)) == SplitSpecId(spec.title).id <==> !LeavesOpen(SplitSpecId(spec.title).body)
  {
    hide SplitSpecId, CaseTitle;
    var id := SplitSpecId(spec.title).id.value;
    SpecIdIsTagText(spec.title);
    var q := TitleShape(spec);
    if LeavesOpen(q) {
      TagSwallowed(q, id);
    } else {
      BracketedReads(id);
      TagFound(q, Bracketed(id));
    }
  }
}
