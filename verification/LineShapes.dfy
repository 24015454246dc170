/** Tesbo-Frontend/lib/markdown.ts: what the lines of each kind look like, character by character, and
    what the renderer takes out of headings, rules, quotes and tables. */
module LineShapes {
  import opened Text
  import opened MarkdownBlocks

  // ----- the shapes -----

  /** `n` times the character. */
  predicate AllAre(s: string, c: char) {
    forall i | 0 <= i < |s| :: s[i] == c
  }

  /** Digits up to `d`, then a point and a space. */
  predicate NumberAt(t: string, d: nat) {
    && 0 < d && d + 2 <= |t| && t[d] == '.' && t[d + 1] == ' '
    && forall i | 0 <= i < d :: '0' <= t[i] <= '9'
  }

  /** Up to six hashes, white space, and after it `n` characters of text on one line, which run to the
      end or up to white space with nothing but hashes behind. */
  predicate HeadingAt(t: string, h: nat, n: nat) {
    && 1 <= h <= 6 && h < |t| && AllAre(t[..h], '#') && IsSpace(t[h])
    && TitleAt(TrimStart(t[h..]), n)
  }

  predicate TitleAt(rest: string, n: nat) {
    && n <= |rest| && (forall i | 0 <= i < n :: !IsLineTerminator(rest[i]))
    && (n == |rest| || ClosingAt(rest[n..]))
  }

  /** White space and then hashes only. */
  predicate ClosingAt(r: string) {
    r != "" && IsSpace(r[0]) && TrimStart(r) != "" && AllAre(TrimStart(r), '#')
  }

  lemma {:induction false} HashRunIs(t: string, h: nat)
    requires h <= |t| && AllAre(t[..h], '#') && (h == |t| || t[h] != '#')
    ensures HashRun(t) == h
  {
    if h > 0 {
      var rest := t[1..][..h - 1];
      assert t[0] == t[..h][0] && forall i | 0 <= i < |rest| :: rest[i] == t[..h][i + 1];
      HashRunIs(t[1..], h - 1);
    }
  }

  lemma {:induction false} HashRunHashes(t: string)
    ensures AllAre(t[..HashRun(t)], '#') && (HashRun(t) == |t| || t[HashRun(t)] != '#')
  {
    if t != "" && t[0] == '#' {
      HashRunHashes(t[1..]);
      assert t[..HashRun(t)] == [t[0]] + t[1..][..HashRun(t) - 1];
    }
  }

  lemma ClosingIff(r: string)
    ensures IsHashTail(r) <==> ClosingAt(r)
  {
    var t := TrimStart(r);
    HashRunHashes(t);
    if AllAre(t, '#') {
      assert t[..|t|] == t;
      HashRunIs(t, |t|);
    } else {
      assert t[..|t|] == t;
    }
  }

  /** The lazy text stops at the first place where it may. */
  lemma {:induction false} TitleEndIsFirst(r: string)
    ensures TitleEnd(r) <= |r| <==> exists n: nat :: TitleAt(r, n)
    ensures TitleEnd(r) <= |r| ==> TitleAt(r, TitleEnd(r))
    ensures forall n: nat :: TitleAt(r, n) ==> TitleEnd(r) <= n
  {
    ClosingIff(r);
    assert r[0..] == r;
    if r == "" || IsHashTail(r) {
      assert TitleAt(r, 0);
    } else {
      var rest := r[1..];
      TitleEndIsFirst(rest);
      forall n: nat | TitleAt(r, n) ensures n > 0 && !IsLineTerminator(r[0]) && TitleAt(rest, n - 1) {
        assert n > 0;
        assert rest[n - 1..] == r[n..];
        assert forall i | 0 <= i < n - 1 :: rest[i] == r[i + 1];
      }
      if !IsLineTerminator(r[0]) && TitleEnd(rest) <= |rest| {
        var n := TitleEnd(rest);
        assert r[n + 1..] == rest[n..] && forall i | 1 <= i < n + 1 :: r[i] == rest[i - 1];
        assert TitleAt(r, n + 1);
      }
    }
  }

  lemma HeadingIff(t: string)
    ensures IsHeading(t) <==> exists h: nat, n: nat :: HeadingAt(t, h, n)
    ensures forall h: nat, n: nat :: HeadingAt(t, h, n) ==> HashRun(t) == h
  {
    hide TitleEnd, IsSpace, TitleAt;
    HashRunHashes(t);
    assert !IsSpace('#') by { HashIsNoSpace(); }
    forall h: nat, n: nat | HeadingAt(t, h, n) ensures HashRun(t) == h && IsHeading(t) {
      HashRunIs(t, h);
      TitleEndIsFirst(TrimStart(t[h..]));
    }
    if IsHeading(t) {
      var h := HashRun(t);
      TitleEndIsFirst(TrimStart(t[h..]));
      assert HeadingAt(t, h, TitleEnd(TrimStart(t[h..])));
    }
  }

  lemma HashIsNoSpace()
    ensures !IsSpace('#')
  {
  }

  lemma {:induction false} DigitRunIs(t: string, d: nat)
    requires d <= |t| && (forall i | 0 <= i < d :: '0' <= t[i] <= '9') && (d == |t| || !('0' <= t[d] <= '9'))
    ensures DigitRun(t) == d
  {
    if d > 0 { DigitRunIs(t[1..], d - 1); }
  }

  lemma NumberIff(t: string)
    ensures IsNumber(t) <==> exists d: nat :: NumberAt(t, d)
    ensures forall d: nat :: NumberAt(t, d) ==> DigitRun(t) == d
  {
    forall d: nat | NumberAt(t, d) ensures DigitRun(t) == d {
      DigitRunIs(t, d);
    }
    if IsNumber(t) { assert NumberAt(t, DigitRun(t)); }
  }

  /** Every line's kind, from its trimmed text; the first shape that fits decides. */
  lemma KindIs(line: string)
    ensures var t, kind := Trim(line), LineKind(line);
      && (kind == FenceLine <==> "```" <= t)
      && (kind == HeadingLine <==> exists h: nat, n: nat :: HeadingAt(t, h, n))
      && (kind == RuleLine <==> |t| >= 3 && AllAre(t, '-'))
      && (kind == QuoteLine <==> ">" <= t)
      && (kind == TableLine <==> "|" <= t)
      && (kind == NumberLine <==> exists d: nat :: NumberAt(t, d))
      && (kind == BulletLine <==> "- " <= t || "* " <= t)
      && (kind == BlankLine <==> t == "")
  {
    hide Trim, HeadingAt, NumberAt, HashRun, TitleEnd;
    var t := Trim(line);
    HeadingIff(t);
    NumberIff(t);
    NumberStartsWithDigit(t);
    HeadingStartsWithHash(t);
    assert ("- " <= t || "* " <= t) <==> IsBullet(t);
    assert ">" <= t <==> IsQuote(t);
    assert "|" <= t <==> IsTable(t);
    assert "```" <= t ==> t[0] == '`';
  }

  lemma NumberStartsWithDigit(t: string)
    ensures IsNumber(t) ==> t != "" && IsDigit(t[0])
  {
  }

  lemma HeadingStartsWithHash(t: string)
    ensures IsHeading(t) ==> t != "" && t[0] == '#'
  {
  }

  // ----- the blocks -----

  /** A heading keeps its level and its text; closing hashes go. */
  lemma HeadingReads(line: string, h: nat, n: nat)
    requires HeadingAt(Trim(line), h, n) && forall m: nat | m < n :: !HeadingAt(Trim(line), h, m)
    ensures BlockOf([line]) == Title(h, TrimStart(Trim(line)[h..])[..n])
  {
    hide Trim, TitleEnd, IsSpace, LineKind;
    var t := Trim(line);
    KindIs(line);
    HeadingIff(t);
    var rest := TrimStart(t[h..]);
    TitleEndIsFirst(rest);
    assert TitleAt(rest, n) && TitleEnd(rest) <= n;
    assert HeadingAt(t, h, TitleEnd(rest));
  }

  /** In particular `## text`, with or without hashes behind. */
  lemma PlainHeading(h: nat, hashes: string, text: string, tail: string)
    requires 1 <= h <= 6 && |hashes| == h && AllAre(hashes, '#')
    requires text != "" && Trimmed(text) && '#' !in text && forall i | 0 <= i < |text| :: !IsLineTerminator(text[i])
    requires tail == "" || (|tail| > 1 && tail[0] == ' ' && AllAre(tail[1..], '#'))
    ensures BlockOf([hashes + " " + text + tail]) == Title(h, text)
  {
    hide BlockOf, IsLineTerminator;
    var line := hashes + " " + text + tail;
    var body := text + tail;
    assert line[|line| - 1] == if tail == "" then text[|text| - 1] else '#';
    assert !IsSpace('#') && line[0] == '#' by { assert hashes[0] == '#'; }
    TrimmedIsFixed(line);
    assert line[..h] == hashes && line[h] == ' ' && line[h..] == " " + body;
    TrimStartSkips(" ", body);
    assert TrimStart(body) == body by { assert body[0] == text[0]; }
    if tail != "" { TailCloses(tail); }
    assert body[|text|..] == tail;
    assert TitleAt(body, |text|);
    assert HeadingAt(line, h, |text|);
    forall m: nat | m < |text| ensures !HeadingAt(line, h, m) {
      NotClosingYet(text, tail, m);
    }
    HeadingReads(line, h, |text|);
    assert body[..|text|] == text;
  }

  lemma TailCloses(tail: string)
    requires |tail| > 1 && tail[0] == ' ' && AllAre(tail[1..], '#')
    ensures ClosingAt(tail)
  {
    assert !IsSpace('#') && tail[1..][0] == '#';
    assert TrimStart(tail) == TrimStart(tail[1..]) == tail[1..];
  }

  /** Inside the text nothing closes: its last character is neither white space nor a hash. */
  lemma NotClosingYet(text: string, tail: string, m: nat)
    requires text != "" && Trimmed(text) && '#' !in text && m < |text|
    ensures !TitleAt(text + tail, m)
  {
    var r := (text + tail)[m..];
    var last := |text| - 1 - m;
    assert r[last] == text[|text| - 1] && !IsSpace(r[last]) && r[last] in text;
    TrimStartSplits(r);
    var t := TrimStart(r);
    var gap := |r| - |t|;
    forall i | 0 <= i < gap ensures IsSpace(r[i]) { assert r[..gap][i] == r[i]; }
    assert t == r[gap..] && t[last - gap] == r[last];
  }

  /** Three dashes or more are a rule; lines of a table are kept as they are; a quote loses one angle
      bracket and at most one space on every line. */
  lemma OtherBlocks(chunk: seq<string>)
    requires chunk != []
    ensures |Trim(chunk[0])| >= 3 && AllAre(Trim(chunk[0]), '-') ==> BlockOf(chunk) == Rule
    ensures "|" <= Trim(chunk[0]) ==> BlockOf(chunk) == Table(chunk)
    ensures ">" <= Trim(chunk[0]) ==> BlockOf(chunk).Quote? && |BlockOf(chunk).lines| == |chunk|
  {
    hide Trim, LineKind, AllAre;
    KindIs(chunk[0]);
  }

  lemma QuotedLine(chunk: seq<string>, k: nat)
    requires k < |chunk| && ">" <= Trim(chunk[0]) && ">" <= Trim(chunk[k])
    ensures var t, text := Trim(chunk[k]), BlockOf(chunk).lines[k];
      BlockOf(chunk).Quote? && |BlockOf(chunk).lines| == |chunk|
      && if "> " <= t then t == "> " + text else t == ">" + text
  {
    hide Trim, LineKind;
    OtherBlocks(chunk);
    KindIs(chunk[0]);
    var t := Trim(chunk[k]);
    assert t[0] == '>' && t == ">" + t[1..] && !IsNumber(t) && !IsBullet(t);
    assert "> " <= t <==> |t| > 1 && t[1] == ' ';
    if "> " <= t { assert t == "> " + t[2..]; }
  }
}
