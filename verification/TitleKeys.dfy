/** e2e/scripts/push-to-tesbo.ts: for a spec without an id, the prose key of its printed title is one
    of its candidate keys, exactly when its prose does not start with the words the reader drops. */
module TitleKeys {
  import opened Options
  import opened Text
  import opened SpecTitles

  // ----- counting key characters -----

  /** The characters of a string that survive in its key. */
  function KeyChars(s: string): nat {
    if s == "" then 0 else (if IsKeyChar(s[0]) then 1 else 0) + KeyChars(s[1..])
  }

  function Letters(s: string): nat {
    KeyChars(Lower(s))
  }

  lemma {:induction false} KeyCharsAppend(a: string, b: string)
    ensures KeyChars(a + b) == KeyChars(a) + KeyChars(b)
  {
    if a == "" {
      assert a + b == b;
    } else {
      assert (a + b)[0] == a[0] && (a + b)[1..] == a[1..] + b;
      KeyCharsAppend(a[1..], b);
    }
  }

  lemma {:induction false} LowerAppend(a: string, b: string)
    ensures Lower(a + b) == Lower(a) + Lower(b)
  {
    if a == "" {
      assert a + b == b;
    } else {
      assert (a + b)[0] == a[0] && (a + b)[1..] == a[1..] + b;
      LowerAppend(a[1..], b);
      assert LowerChar(a[0]) + (Lower(a[1..]) + Lower(b)) == LowerChar(a[0]) + Lower(a[1..]) + Lower(b);
    }
  }

  lemma LettersAppend(a: string, b: string)
    ensures Letters(a + b) == Letters(a) + Letters(b)
  {
    LowerAppend(a, b);
    KeyCharsAppend(Lower(a), Lower(b));
  }

  lemma {:induction false} BlankHasNoLetters(w: string)
    requires AllSpace(w)
    ensures Letters(w) == 0 && Lower(w) == w && SkipGap(w) == ""
  {
    if w != "" {
      assert IsSpace(w[0]) && LowerChar(w[0]) == [w[0]];
      BlankHasNoLetters(w[1..]);
      assert w == [w[0]] + w[1..] && (([w[0]] + w[1..])[1..] == w[1..]);
    }
  }

  lemma {:induction false} KeyCharsOfSkip(s: string)
    ensures KeyChars(SkipGap(s)) == KeyChars(s)
  {
    if s != "" && !IsKeyChar(s[0]) { KeyCharsOfSkip(s[1..]); }
  }

  lemma {:induction false} KeyCharsOfSpaced(s: string)
    ensures KeyChars(Spaced(s)) == KeyChars(s)
    decreases |s|
  {
    if s != "" {
      if IsKeyChar(s[0]) {
        KeyCharsOfSpaced(s[1..]);
        assert Spaced(s)[0] == s[0] && Spaced(s)[1..] == Spaced(s[1..]);
      } else {
        var t := SkipGap(s[1..]);
        KeyCharsOfSpaced(t);
        KeyCharsOfSkip(s[1..]);
        assert Spaced(s)[0] == ' ' && Spaced(s)[1..] == Spaced(t);
      }
    }
  }

  lemma KeyCharsOfBlank(w: string)
    requires AllSpace(w)
    ensures KeyChars(w) == 0
  {
    BlankHasNoLetters(w);
  }

  lemma KeyCharsOfTrim(s: string)
    ensures KeyChars(Trim(s)) == KeyChars(s)
  {
    if AllSpace(s) {
      BlankTail(s);
      TrimStartSplits(s);
      TrimEndSplits(TrimStart(s));
      KeyCharsOfBlank(s);
      KeyCharsOfBlank(Trim(s));
    } else {
      var w, r := CoreSplit(s);
      KeyCharsAppend(w, Trim(s) + r);
      KeyCharsAppend(Trim(s), r);
      KeyCharsOfBlank(w);
      KeyCharsOfBlank(r);
    }
  }

  /** A key has as many characters that count as the string it was made of: different counts,
      different keys. */
  lemma KeyCounts(s: string)
    ensures KeyChars(Squash(s)) == Letters(s)
  {
    KeyCharsOfSpaced(Lower(s));
    KeyCharsOfTrim(Spaced(Lower(s)));
  }

  lemma LettersOfTrimStart(s: string)
    ensures Letters(TrimStart(s)) == Letters(s)
  {
    TrimStartSplits(s);
    var w := s[..|s| - |TrimStart(s)|];
    LettersAppend(w, TrimStart(s));
    BlankHasNoLetters(w);
  }

  /** The letters of a word that DropWord recognises. */
  lemma {:induction false} WordLetters(s: string, word: string)
    requires |s| == |word| && forall i | 0 <= i < |word| :: AsciiLower(s[i]) == word[i]
    requires forall i | 0 <= i < |word| :: IsLower(word[i]) || word[i] == ' '
    ensures Letters(s) == KeyChars(word)
  {
    if s != "" {
      assert AsciiLower(s[0]) == word[0] && LowerChar(s[0]) == [word[0]];
      WordLetters(s[1..], word[1..]);
      assert Lower(s)[0] == word[0] && Lower(s)[1..] == Lower(s[1..]);
    }
  }

  /** Dropping a word drops its letters, and only those. */
  lemma DropWordLetters(s: string, word: string)
    requires forall i | 0 <= i < |word| :: IsLower(word[i]) || word[i] == ' '
    ensures Letters(s) == Letters(DropWord(s, word)) + if StartsWithWord(s, word) then KeyChars(word) else 0
  {
    if StartsWithWord(s, word) {
      var n := |word|;
      assert s == s[..n] + s[n..];
      LettersAppend(s[..n], s[n..]);
      WordLetters(s[..n], word);
      LettersOfTrimStart(s[n..]);
    }
  }

  lemma WordSizes()
    ensures KeyChars("that") == 4 && KeyChars("verify") == 6 && KeyChars("verify that") == 10
  {
    hide KeyChars;
    ThreeLetters("hat");
    OneMore("that");
    ThreeLetters("ver");
    ThreeLetters("ify");
    assert "that"[1..] == "hat" && " "[1..] == "";
    assert "verify" == "ver" + "ify" && "verify that" == "verify" + (" " + "that");
    KeyCharsAppend("ver", "ify");
    KeyCharsAppend("verify", " " + "that");
    KeyCharsAppend(" ", "that");
    OneMore(" ");
    NoLetters();
  }

  lemma NoLetters()
    ensures KeyChars("") == 0
  {
  }

  lemma OneMore(s: string)
    requires s != ""
    ensures KeyChars(s) == (if IsKeyChar(s[0]) then 1 else 0) + KeyChars(s[1..])
  {
  }

  lemma ThreeLetters(s: string)
    requires |s| == 3
    ensures (forall i | 0 <= i < 3 :: IsKeyChar(s[i])) ==> KeyChars(s) == 3
  {
    hide KeyChars;
    OneMore(s);
    OneMore(s[1..]);
    OneMore(s[2..]);
    NoLetters();
    assert s[1..][1..] == s[2..] && s[2..][1..] == "";
  }

  // ----- white space does not change a key -----

  /** The rest after a leading gap is what the spaced form shows after its first space. */
  lemma SpacedSkip(s: string)
    ensures Spaced(SkipGap(s)) == if s == "" || IsKeyChar(s[0]) then Spaced(s) else Spaced(s)[1..]
  {
  }

  lemma {:induction false} SkipGapAppend(a: string, b: string)
    requires SkipGap(a) == ""
    ensures SkipGap(a + b) == SkipGap(b)
  {
    if a == "" {
      assert a + b == b;
    } else {
      assert (a + b)[0] == a[0] && (a + b)[1..] == a[1..] + b;
      SkipGapAppend(a[1..], b);
    }
  }

  /** A stretch of white space counts as one gap. */
  lemma SpacedGap(w: string, s: string)
    requires w != "" && AllSpace(w)
    ensures Spaced(w + s) == " " + Spaced(SkipGap(s))
  {
    assert (w + s)[0] == w[0] && (w + s)[1..] == w[1..] + s;
    BlankHasNoLetters(w[1..]);
    SkipGapAppend(w[1..], s);
  }

  lemma {:induction false} SpacedAfterKeyChars(a: string, x: string, y: string)
    requires Spaced(x) == Spaced(y)
    ensures Spaced(a + x) == Spaced(a + y)
    decreases |a|
  {
    if a == "" {
      assert a + x == x && a + y == y;
    } else {
      assert (a + x)[0] == a[0] && (a + x)[1..] == a[1..] + x;
      assert (a + y)[0] == a[0] && (a + y)[1..] == a[1..] + y;
      SpacedAfterKeyChars(a[1..], x, y);
      SpacedSkip(a[1..] + x);
      SpacedSkip(a[1..] + y);
      SpacedStart(a[1..] + x);
      SpacedStart(a[1..] + y);
    }
  }

  /** The spaced form shows whether a string starts with a gap. */
  lemma SpacedStart(s: string)
    ensures Spaced(s) == "" <==> s == ""
    ensures s != "" ==> (Spaced(s)[0] == ' ' <==> !IsKeyChar(s[0]))
  {
  }

  lemma {:induction false} SpacedOfCollapse(s: string)
    ensures Spaced(Lower(Collapse(s))) == Spaced(Lower(s))
    decreases |s|
  {
    if s != "" {
      if IsSpace(s[0]) {
        TrimStartSplits(s);
        var t := TrimStart(s);
        var w := s[..|s| - |t|];
        SpacedOfCollapse(t);
        LowerAppend(w, t);
        LowerAppend(" ", Collapse(t));
        BlankHasNoLetters(w);
        BlankHasNoLetters(" ");
        SpacedGap(w, Lower(t));
        SpacedGap(" ", Lower(Collapse(t)));
        SpacedSkip(Lower(t));
        SpacedSkip(Lower(Collapse(t)));
        SpacedStart(Lower(t));
        SpacedStart(Lower(Collapse(t)));
      } else {
        SpacedOfCollapse(s[1..]);
        LowerAppend([s[0]], s[1..]);
        LowerAppend([s[0]], Collapse(s[1..]));
        assert s == [s[0]] + s[1..];
        SpacedAfterKeyChars(Lower([s[0]]), Lower(s[1..]), Lower(Collapse(s[1..])));
      }
    }
  }

  /** White space before a string only adds a gap that trimming removes. */
  lemma SquashSkips(w: string, s: string)
    requires AllSpace(w)
    ensures Squash(w + s) == Squash(s)
  {
    if w == "" {
      assert w + s == s;
    } else {
      LowerAppend(w, s);
      BlankHasNoLetters(w);
      var l := Lower(s);
      SpacedGap(w, l);
      SpacedSkip(l);
      SpacedStart(l);
      TrimStartSkips(" ", Spaced(SkipGap(l)));
      if l != "" && !IsKeyChar(l[0]) {
        assert Spaced(l) == " " + Spaced(SkipGap(l[1..])) && SkipGap(l) == SkipGap(l[1..]);
      }
    }
  }

  /** So does white space after it. */
  lemma SquashDropsTail(s: string, w: string)
    requires AllSpace(w)
    ensures Squash(s + w) == Squash(s)
  {
    LowerAppend(s, w);
    BlankHasNoLetters(w);
    SpacedTail(Lower(s), w);
    var x := Spaced(Lower(s));
    var y := Spaced(Lower(s) + w);
    if y != x { TrimWithTail(x); }
  }

  lemma TrimWithTail(x: string)
    ensures Trim(x + " ") == Trim(x)
  {
    TrimStartSplits(x);
    if AllSpace(x) {
      BlankTail(x);
      BlankTail(x + " ");
      TrimStartSplits(x + " ");
    } else {
      var w, r := CoreSplit(x);
      var m := Trim(x);
      assert x + " " == w + (m + (r + " "));
      TrimStartSkips(w, m + (r + " "));
      assert TrimStart(m + (r + " ")) == m + (r + " ") by { assert (m + (r + " "))[0] == m[0]; }
      TrimEndSkips(m, r + " ");
      TrimmedIsFixed(m);
    }
  }

  lemma {:induction false} SpacedTail(s: string, w: string)
    requires AllSpace(w)
    ensures Spaced(s + w) == Spaced(s) || Spaced(s + w) == Spaced(s) + " "
    decreases |s|
  {
    if s == "" {
      assert s + w == w && w + "" == w;
      if w != "" {
        SpacedGap(w, "");
        assert Spaced(w) == " ";
      }
    } else {
      assert (s + w)[0] == s[0] && (s + w)[1..] == s[1..] + w;
      SpacedTail(s[1..], w);
      if !IsKeyChar(s[0]) {
        SpacedSkip(s[1..] + w);
        SpacedSkip(s[1..]);
        SpacedStart(s[1..]);
        SpacedStart(s[1..] + w);
        if s[1..] == "" {
          BlankHasNoLetters(w);
          assert s[1..] + w == w;
        }
      }
    }
  }

  /** Tidying a string keeps its key. */
  lemma SquashOfTidy(s: string)
    ensures Squash(Tidy(s)) == Squash(s)
  {
    hide Tidy, Squash, Trim;
    var c := Collapse(s);
    SquashOfCollapse(s);
    TidyIsTrim(s);
    if AllSpace(c) {
      SquashDropsTail("", c);
      assert "" + c == c;
      TrimOfBlank(c);
    } else {
      var w, r := CoreSplit(c);
      SquashSkips(w, Trim(c) + r);
      SquashDropsTail(Trim(c), r);
    }
  }

  lemma SquashOfCollapse(s: string)
    ensures Squash(Collapse(s)) == Squash(s)
  {
    SpacedOfCollapse(s);
  }

  lemma TidyIsTrim(s: string)
    ensures Tidy(s) == Trim(Collapse(s))
  {
  }

  lemma TrimOfBlank(c: string)
    requires AllSpace(c)
    ensures Trim(c) == ""
  {
    BlankTail(c);
    TrimStartSplits(c);
  }
}
