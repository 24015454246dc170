/** Tesbo-Frontend/lib/markdown.ts: renderMarkdown escapes the text first and reads its lines in their
    escaped form, where a quote starts with `&gt;`. The block model reads the lines as they were
    written. Both see the same kinds of line and take the same text out of them. */
module Escaping {
  import opened Text
  import opened InlineMarks
  import opened MarkdownBlocks

  /** `/^&gt; ?/`. */
  predicate IsEscapedQuote(t: string) {
    "&gt;" <= t
  }

  /** The tests of the block loop, on an escaped line. */
  function EscapedKind(line: string): Kind {
    var t := Trim(line);
    if IsFence(t) then FenceLine
    else if IsHeading(t) then HeadingLine
    else if IsRule(t) then RuleLine
    else if IsEscapedQuote(t) then QuoteLine
    else if IsTable(t) then TableLine
    else if IsNumber(t) then NumberLine
    else if IsBullet(t) then BulletLine
    else if t == "" then BlankLine
    else TextLine
  }

  /** A line of a quote or a list without its marker, on an escaped line. */
  function EscapedItem(line: string): string {
    var t := Trim(line);
    if IsNumber(t) then t[DigitRun(t) + 2..]
    else if IsBullet(t) then t[2..]
    else if IsEscapedQuote(t) then if |t| > 4 && t[4] == ' ' then t[5..] else t[4..]
    else line
  }

  /** The text of a heading. */
  function TitleText(t: string): string
    requires IsHeading(t)
  {
    var rest := TrimStart(t[HashRun(t)..]);
    rest[..TitleEnd(rest)]
  }

  // ----- character by character -----

  /** What one character is written as. */
  lemma EscFirst(s: string) returns (w: string)
    requires s != ""
    ensures Esc(s) == w + Esc(s[1..]) && w != "" && (s[0] !in "&<>\"" ==> w == [s[0]])
    ensures s[0] in "&<>\"" ==>
      |w| > 2 && w[0] == '&' && forall i | 0 <= i < |w| :: !IsSpace(w[i]) && !IsLineTerminator(w[i])
    ensures "&gt;" <= w <==> s[0] == '>'
    ensures s[0] in "&<>\"" && s[0] != '>' ==> w[1] != 'g'
  {
    w := Esc([s[0]]);
    assert s == [s[0]] + s[1..];
    EscAppend([s[0]], s[1..]);
    assert Esc("") == "";
    if w[0] == '&' && s[0] != '>' { assert w[1] != 'g'; }
  }

  lemma EscTrim(s: string)
    ensures Trim(Esc(s)) == Esc(Trim(s))
  {
    hide TrimStart, TrimEnd, Esc;
    EscTrimStart(s);
    EscTrimEnd(TrimStart(s));
  }

  /** The first characters, as far as the patterns look at them. */
  lemma EscPrefix(t: string, c: char)
    requires c !in "&<>\""
    ensures t != "" && t[0] == c <==> Esc(t) != "" && Esc(t)[0] == c
    ensures t != "" && t[0] == c ==> Esc(t)[1..] == Esc(t[1..])
  {
    hide Esc;
    EscKeepsEdge(t);
    if t != "" { var w := EscFirst(t); }
  }

  lemma EscFence(t: string)
    ensures IsFence(Esc(t)) == IsFence(t) && IsClosing(Esc(t)) == IsClosing(t)
  {
    hide Esc;
    EscPrefix(t, '`');
    if t != "" && t[0] == '`' {
      EscPrefix(t[1..], '`');
      if |t| > 1 && t[1] == '`' {
        EscPrefix(t[2..], '`');
        if |t| > 2 { EscKeepsEdge(t[3..]); }
      }
    }
  }

  lemma {:induction false} EscHashRun(t: string)
    ensures HashRun(Esc(t)) == HashRun(t) && Esc(t)[HashRun(t)..] == Esc(t[HashRun(t)..])
  {
    hide Esc;
    EscPrefix(t, '#');
    EscKeepsEdge(t);
    if t != "" && t[0] == '#' { EscHashRun(t[1..]); }
  }

  lemma {:induction false} EscDigitRun(t: string)
    ensures DigitRun(Esc(t)) == DigitRun(t) && Esc(t)[DigitRun(t)..] == Esc(t[DigitRun(t)..])
    ensures Esc(t)[..DigitRun(t)] == t[..DigitRun(t)]
  {
    hide Esc;
    EscKeepsEdge(t);
    if t != "" {
      var w := EscFirst(t);
      if IsDigit(t[0]) {
        EscPrefix(t, t[0]);
        EscDigitRun(t[1..]);
        var n := DigitRun(t[1..]);
        assert Esc(t)[..1 + n] == [t[0]] + Esc(t[1..])[..n] && t[..1 + n] == [t[0]] + t[1..][..n];
      }
    }
  }

  lemma {:induction false} EscRule(t: string)
    ensures IsRule(Esc(t)) == IsRule(t)
  {
    hide Esc;
    if forall i | 0 <= i < |t| :: t[i] == '-' {
      EscPlain(t);
    } else {
      EscHasOther(t);
    }
  }

  lemma {:induction false} EscHasOther(t: string)
    requires exists i | 0 <= i < |t| :: t[i] != '-'
    ensures exists i | 0 <= i < |Esc(t)| :: Esc(t)[i] != '-'
  {
    hide Esc;
    EscPrefix(t, '-');
    EscKeepsEdge(t);
    if t[0] == '-' {
      assert t == [t[0]] + t[1..];
      EscHasOther(t[1..]);
      var i :| 0 <= i < |Esc(t[1..])| && Esc(t[1..])[i] != '-';
      assert Esc(t)[i + 1] == Esc(t)[1..][i];
    }
  }

  lemma EscHashTail(r: string)
    ensures IsHashTail(Esc(r)) == IsHashTail(r)
  {
    hide Esc;
    EscKeepsEdge(r);
    EscTrimStart(r);
    var t := TrimStart(r);
    EscKeepsEdge(t);
    EscHashRun(t);
    EscKeepsEdge(t[HashRun(t)..]);
  }

  /** The lazy text of a heading runs over an escaped character as over a plain one. */
  lemma {:induction false} TitleSkips(w: string, rest: string)
    requires forall i | 0 <= i < |w| :: !IsSpace(w[i]) && !IsLineTerminator(w[i])
    ensures TitleEnd(w + rest) == |w| + TitleEnd(rest)
  {
    if w == "" {
      assert w + rest == rest;
    } else {
      assert (w + rest)[0] == w[0] && (w + rest)[1..] == w[1..] + rest;
      TitleSkips(w[1..], rest);
    }
  }

  lemma {:induction false} EscTitleEnd(r: string)
    ensures TitleEnd(Esc(r)) <= |Esc(r)| <==> TitleEnd(r) <= |r|
    ensures TitleEnd(r) <= |r| ==> Esc(r)[..TitleEnd(Esc(r))] == Esc(r[..TitleEnd(r)])
  {
    hide Esc, IsHashTail;
    EscKeepsEdge(r);
    EscHashTail(r);
    if r != "" && !IsHashTail(r) {
      var w := EscFirst(r);
      var rest := Esc(r[1..]);
      EscTitleEnd(r[1..]);
      if r[0] in "&<>\"" {
        TitleSkips(w, rest);
      } else {
        assert Esc(r)[0] == r[0] && Esc(r)[1..] == rest;
      }
      if !IsLineTerminator(r[0]) && TitleEnd(r) <= |r| {
        TitleJoins(r, w, TitleEnd(r[1..]), TitleEnd(rest));
      }
    } else {
      EscKeepsEdge("");
      assert r[..0] == "" && Esc(r)[..0] == "";
    }
  }

  lemma TitleJoins(r: string, w: string, n: nat, m: nat)
    requires r != "" && Esc(r) == w + Esc(r[1..]) && n < |r| && m <= |Esc(r[1..])|
      && Esc(r[1..])[..m] == Esc(r[1..][..n])
    ensures Esc(r)[..|w| + m] == Esc(r[..n + 1])
  {
    hide Esc;
    var t := r[..n + 1];
    assert t == [r[0]] + r[1..][..n] && r == [r[0]] + r[1..];
    EscAppend([r[0]], r[1..]);
    EscAppend([r[0]], r[1..][..n]);
    assert Esc([r[0]]) == w by {
      var e := Esc([r[0]]);
      assert |e + Esc(r[1..])| == |w + Esc(r[1..])|;
      assert (e + Esc(r[1..]))[..|e|] == (w + Esc(r[1..]))[..|w|];
    }
    assert (w + Esc(r[1..]))[..|w| + m] == w + Esc(r[1..])[..m];
  }

  lemma EscHeading(t: string)
    ensures IsHeading(Esc(t)) == IsHeading(t)
    ensures IsHeading(t) ==> HashRun(Esc(t)) == HashRun(t) && TitleText(Esc(t)) == Esc(TitleText(t))
  {
    hide Esc, TitleEnd;
    EscHashRun(t);
    var rest := t[HashRun(t)..];
    EscKeepsEdge(rest);
    EscTrimStart(rest);
    EscTitleEnd(TrimStart(rest));
    assert HashRun(t) < |t| <==> rest != "";
    assert HashRun(t) < |Esc(t)| <==> Esc(rest) != "";
  }

  lemma EscQuoteLine(t: string)
    ensures IsEscapedQuote(Esc(t)) == IsQuote(t)
    ensures IsQuote(t) ==> Esc(t)[4..] == Esc(t[1..])
  {
    hide Esc;
    EscKeepsEdge(t);
    if t != "" {
      var w := EscFirst(t);
      var rest := Esc(t[1..]);
      if t[0] == '>' {
        assert w == "&gt;" by { QuoteIsFour(t[1..]); assert t == ">" + t[1..]; assert |w + rest| == |"&gt;" + rest|; }
      } else if t[0] in "&<\"" {
        assert Esc(t)[1] == w[1];
      } else {
        assert Esc(t)[0] == t[0];
      }
    }
  }

  lemma QuoteIsFour(rest: string)
    ensures Esc(">" + rest) == "&gt;" + Esc(rest)
  {
    assert (">" + rest)[1..] == rest;
  }

  lemma EscListLine(t: string)
    ensures IsNumber(Esc(t)) == IsNumber(t) && IsBullet(Esc(t)) == IsBullet(t)
    ensures IsNumber(t) ==> DigitRun(t) + 2 <= |Esc(t)| && Esc(t)[DigitRun(t) + 2..] == Esc(t[DigitRun(t) + 2..])
    ensures IsBullet(t) ==> |Esc(t)| >= 2 && Esc(t)[2..] == Esc(t[2..])
  {
    hide Esc;
    EscDigitRun(t);
    var rest := t[DigitRun(t)..];
    AfterMarker(rest, '.');
    AfterMarker(t, '-');
    AfterMarker(t, '*');
  }

  /** A marker and a space in front. */
  lemma AfterMarker(s: string, c: char)
    requires c !in "&<>\""
    ensures |s| > 1 && s[0] == c && s[1] == ' ' <==> |Esc(s)| > 1 && Esc(s)[0] == c && Esc(s)[1] == ' '
    ensures |s| > 1 && s[0] == c && s[1] == ' ' ==> Esc(s)[2..] == Esc(s[2..])
  {
    hide Esc;
    EscPrefix(s, c);
    if s != "" && s[0] == c { EscPrefix(s[1..], ' '); }
  }

  // ----- whole lines -----

  /** Every line is of the same kind before and after escaping. */
  lemma KindSurvivesEscaping(line: string)
    ensures EscapedKind(Esc(line)) == LineKind(line)
  {
    hide Esc, Trim, IsFence, IsClosing, IsHeading, IsRule, IsQuote, IsTable, IsNumber, IsBullet;
    var t := Trim(line);
    EscTrim(line);
    EscFence(t);
    EscHeading(t);
    EscRule(t);
    EscQuoteLine(t);
    EscTableLine(t);
    EscListLine(t);
    EscKeepsEdge(t);
  }

  lemma EscTableLine(t: string)
    ensures IsTable(Esc(t)) == IsTable(t)
  {
    EscPrefix(t, '|');
  }

  /** And what is left of a quote or list line without its marker is the same text, escaped. */
  lemma ItemSurvivesEscaping(line: string)
    ensures LineKind(line) == QuoteLine || LineKind(line) == NumberLine || LineKind(line) == BulletLine ==>
              EscapedItem(Esc(line)) == Esc(ItemText(line))
    ensures LineKind(line) == NumberLine ==> ListStart(Esc(line)) == ListStart(line)
  {
    hide Esc, Trim, IsNumber, IsBullet, IsFence, IsHeading, IsRule;
    var t := Trim(line);
    EscTrim(line);
    EscQuoteLine(t);
    EscListLine(t);
    EscDigitRun(t);
    if IsQuote(t) {
      EscPrefix(t[1..], ' ');
      assert Esc(t)[4..] != "" ==> Esc(t)[4] == Esc(t)[4..][0];
      assert Esc(t)[4..] != "" ==> Esc(t)[5..] == Esc(t)[4..][1..];
    }
  }
}
