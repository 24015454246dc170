/** Bold and italic across a comment's round trip: Tesbo-Frontend/lib/commentMarkdown.ts writes the
    marks of a text run as Markdown delimiters, and `mdInline` of Tesbo-Frontend/lib/markdown.ts, a
    chain of five regular-expression replacements, reads them back. */
module InlineMarks {
  import opened Text

  /** A text node of the editor with its marks; links are not part of this model. */
  datatype Run = Run(text: string, bold: bool, italic: bool)

  // ----- the writer -----

  /** `/^(\s*)([\s\S]*?)(\s*)$/`: edge spaces on either side of the core. */
  datatype Parts = Parts(lead: string, core: string, trail: string)

  function Split(text: string): Parts {
    var rest, core := TrimStart(text), Trim(text);
    TrimStartSplits(text);
    TrimEndSplits(rest);
    Parts(text[..|text| - |rest|], core, rest[|core|..])
  }

  predicate Marked(run: Run) {
    (run.bold || run.italic) && Split(run.text).core != ""
  }

  /** `x` between two delimiters, and `x` between two tags. */
  function Delimited(mark: string, x: string): string {
    mark + x + mark
  }

  function Tagged(tag: string, x: string): string {
    "<" + tag + ">" + x + "</" + tag + ">"
  }

  /** The core of a run as Markdown: bold and italic is **_x_**. */
  function Delimit(core: string, bold: bool, italic: bool): string {
    if bold && italic then Delimited("**", Delimited("_", core))
    else if bold then Delimited("**", core)
    else if italic then Delimited("*", core)
    else core
  }

  /** A text node with its core rewritten and its edge spaces kept outside. */
  function Around(parts: Parts, core: string): string {
    parts.lead + core + parts.trail
  }

  /** textToMarkdown. */
  function TextToMarkdown(run: Run): string {
    var parts := Split(run.text);
    if parts.core == "" then run.text else Around(parts, Delimit(parts.core, run.bold, run.italic))
  }

  /** inlineToMarkdown, for a line without hard breaks. */
  function InlineToMarkdown(runs: seq<Run>): string {
    if runs == [] then "" else TextToMarkdown(runs[0]) + InlineToMarkdown(runs[1..])
  }

  /** What the comment should display. */
  function Html(run: Run): string {
    var parts := Split(run.text);
    if parts.core == "" then run.text
    else
      var em := if run.italic then Tagged("em", parts.core) else parts.core;
      Around(parts, if run.bold then Tagged("strong", em) else em)
  }

  function HtmlOf(runs: seq<Run>): string {
    if runs == [] then "" else Html(runs[0]) + HtmlOf(runs[1..])
  }

  // ----- the reader -----

  /** Where `c` first occurs, or the length of the string. */
  function IndexOf(s: string, c: char): (n: nat)
    ensures n <= |s| && c !in s[..n] && (n < |s| ==> s[n] == c)
  {
    if s == "" || s[0] == c then 0
    else
      var n := IndexOf(s[1..], c) + 1;
      assert s[..n] == [s[0]] + s[1..][..n - 1];
      n
  }

  /** `` /`([^`]+)`/g ``. */
  function CodePass(s: string): string
    decreases |s|
  {
    if s == "" then ""
    else
      var n := IndexOf(s[1..], '`');
      if s[0] == '`' && 0 < n < |s| - 1 then
        "<code class=\"inline-code\">" + s[1..n + 1] + "</code>" + CodePass(s[n + 2..])
      else [s[0]] + CodePass(s[1..])
  }

  /** The end of the lazy `(.+?)` before the closing `mark`: the least k > 0 with `mark` at k and no
      line terminator before it; 0 if there is none. */
  function LazyEnd(s: string, mark: string, k: nat): nat
    requires k <= |s|
    decreases |s| - k
  {
    if k > 0 && k + |mark| <= |s| && s[k..k + |mark|] == mark then k
    else if k < |s| && !IsLineTerminator(s[k]) then LazyEnd(s, mark, k + 1)
    else 0
  }

  lemma {:induction false} LazyEndBound(s: string, mark: string, k: nat)
    requires k <= |s|
    ensures LazyEnd(s, mark, k) > 0 ==> LazyEnd(s, mark, k) + |mark| <= |s|
    decreases |s| - k
  {
    if k < |s| { LazyEndBound(s, mark, k + 1); }
  }

  // The bold and the starred italic replacement: `mark`, then lazily at least one character, then
  // `mark` again, becomes `tag` around those characters.
  function MarkPass(s: string, mark: string, tag: string): string
    requires mark != ""
    decreases |s|
  {
    if s == "" then ""
    else if mark <= s then
      var inner := s[|mark|..];
      var k := LazyEnd(inner, mark, 0);
      LazyEndBound(inner, mark, 0);
      if k > 0 then
        Tagged(tag, inner[..k]) + MarkPass(inner[k + |mark|..], mark, tag)
      else [s[0]] + MarkPass(s[1..], mark, tag)
    else [s[0]] + MarkPass(s[1..], mark, tag)
  }

  predicate IsWord(c: char) {
    IsUpper(c) || IsLower(c) || IsDigit(c) || c == '_'
  }

  /** After an opening underscore: a non-empty stretch without underscores, an underscore, and no
      word character after it. Its length, or 0. */
  function EmphasisEnd(s: string): (n: nat)
    ensures n > 0 ==> n < |s| && s[n] == '_'
  {
    var n := IndexOf(s, '_');
    if n < |s| && (n + 1 == |s| || !IsWord(s[n + 1])) then n else 0
  }

  /** `/(^|[^A-Za-z0-9_])_([^_]+?)_(?![A-Za-z0-9_])/g`; `start` says that `^` matches here. */
  function UnderPass(s: string, start: bool): string
    decreases |s|
  {
    if s == "" then ""
    else if start && s[0] == '_' && EmphasisEnd(s[1..]) > 0 then
      var n := EmphasisEnd(s[1..]);
      Tagged("em", s[1..n + 1]) + UnderPass(s[n + 2..], false)
    else if !IsWord(s[0]) && |s| > 1 && s[1] == '_' && EmphasisEnd(s[2..]) > 0 then
      var n := EmphasisEnd(s[2..]);
      [s[0]] + (Tagged("em", s[2..n + 2]) + UnderPass(s[n + 3..], false))
    else [s[0]] + UnderPass(s[1..], false)
  }

  /** The length of the run of characters that `[^\s)]` matches. */
  function UrlRun(s: string): (n: nat)
    ensures n <= |s|
  {
    if s == "" || IsSpace(s[0]) || s[0] == ')' then 0 else 1 + UrlRun(s[1..])
  }

  /** The length of `https?:\/\/[^\s)]+` when it starts `s` and a `)` follows it; otherwise 0. */
  function UrlEnd(s: string): (n: nat)
    ensures n > 0 ==> n < |s|
  {
    var scheme := if "https://" <= s then 8 else if "http://" <= s then 7 else 0;
    var n := if scheme > 0 then UrlRun(s[scheme..]) else 0;
    if n > 0 && scheme + n < |s| && s[scheme + n] == ')' then scheme + n else 0
  }

  /** `/\[([^\]]+)\]\((https?:\/\/[^\s)]+)\)/g`. */
  function LinkPass(s: string): string
    decreases |s|
  {
    if s == "" then ""
    else
      var n := IndexOf(s[1..], ']');
      if s[0] == '[' && n > 0 && n + 2 < |s| && s[n + 2] == '(' && UrlEnd(s[n + 3..]) > 0 then
        var m := UrlEnd(s[n + 3..]);
        "<a href=\"" + s[n + 3..n + 3 + m] + "\" target=\"_blank\" rel=\"noopener noreferrer\">"
        + s[1..n + 1] + "</a>" + LinkPass(s[n + 4 + m..])
      else [s[0]] + LinkPass(s[1..])
  }

  function MdInline(s: string): string {
    LinkPass(UnderPass(MarkPass(MarkPass(CodePass(s), "**", "strong"), "*", "em"), true))
  }

  /** The escaping renderMarkdown does first. */
  function Esc(s: string): string {
    if s == "" then ""
    else (match s[0]
          case '&' => "&amp;"
          case '<' => "&lt;"
          case '>' => "&gt;"
          case '"' => "&quot;"
          case c => [c]) + Esc(s[1..])
  }

  // ----- what the passes leave alone -----

  lemma {:induction false} CodePassSkips(s: string)
    requires '`' !in s
    ensures CodePass(s) == s
  {
    if s != "" { CodePassSkips(s[1..]); }
  }

  lemma LinkPassStep(s: string)
    requires s != "" && s[0] != '['
    ensures LinkPass(s) == [s[0]] + LinkPass(s[1..])
  {
  }

  lemma {:induction false} LinkPassCopies(a: string, b: string)
    requires '[' !in a
    ensures LinkPass(a + b) == a + LinkPass(b)
  {
    hide LinkPass;
    if a == "" {
      assert a + b == b;
    } else {
      assert (a + b)[0] == a[0] && (a + b)[1..] == a[1..] + b;
      LinkPassStep(a + b);
      LinkPassCopies(a[1..], b);
      assert [a[0]] + a[1..] == a;
    }
  }

  lemma LinkPassSkips(s: string)
    requires '[' !in s
    ensures LinkPass(s) == s
  {
    LinkPassCopies(s, "");
    assert s + "" == s;
  }

  /** Text without a star is copied. */
  lemma {:induction false} MarkPassSkips(a: string, b: string, mark: string, tag: string)
    requires mark != "" && mark[0] == '*' && '*' !in a
    ensures MarkPass(a + b, mark, tag) == a + MarkPass(b, mark, tag)
  {
    hide LazyEnd, Tagged;
    if a == "" {
      assert a + b == b;
    } else {
      assert (a + b)[0] == a[0] && (a + b)[1..] == a[1..] + b;
      MarkPassSkips(a[1..], b, mark, tag);
      assert [a[0]] + a[1..] == a;
    }
  }

  lemma {:induction false} LazyEndFinds(core: string, mark: string, rest: string, k: nat)
    requires core != "" && k <= |core| && '*' !in core[k..] && (forall c | c in core :: !IsLineTerminator(c))
    requires mark == "*" || mark == "**"
    ensures LazyEnd(core + mark + rest, mark, k) == |core|
    decreases |core| - k
  {
    var s := core + mark + rest;
    if k < |core| {
      assert s[k] == core[k] && core[k..] == [core[k]] + core[k + 1..];
      assert k + |mark| <= |s| ==> s[k..k + |mark|][0] == s[k];
      LazyEndFinds(core, mark, rest, k + 1);
    } else {
      assert s[k..k + |mark|] == mark;
    }
  }

  /** A delimited core becomes a tag. */
  lemma MarkPassTags(core: string, rest: string, mark: string, tag: string)
    requires core != "" && '*' !in core && (forall c | c in core :: !IsLineTerminator(c))
    requires mark == "*" || mark == "**"
    ensures MarkPass(Delimited(mark, core) + rest, mark, tag) == Tagged(tag, core) + MarkPass(rest, mark, tag)
  {
    hide LazyEnd, Tagged;
    var s := Delimited(mark, core) + rest;
    var inner := core + mark + rest;
    assert mark <= s && s[|mark|..] == inner;
    assert core[0..] == core;
    LazyEndFinds(core, mark, rest, 0);
    assert inner[..|core|] == core && inner[|core| + |mark|..] == rest;
  }

  lemma LoneStar(x: string, tag: string)
    requires x == "" || x[0] != '*'
    ensures MarkPass("*" + x, "**", tag) == "*" + MarkPass(x, "**", tag)
  {
    hide LazyEnd, Tagged;
    var s := "*" + x;
    assert s[1..] == x && (x != "" ==> s[1] == x[0]);
    assert !("**" <= s);
  }

  /** The bold pass copies an italic run, unless another star follows at once. */
  lemma BoldPassSkipsItalic(core: string, rest: string, tag: string)
    requires core != "" && '*' !in core && (rest == "" || rest[0] != '*')
    ensures MarkPass(Delimited("*", core) + rest, "**", tag) == Delimited("*", core) + MarkPass(rest, "**", tag)
  {
    hide MarkPass;
    var tail := "*" + rest;
    assert Delimited("*", core) + rest == "*" + (core + tail);
    assert (core + tail)[0] == core[0];
    LoneStar(core + tail, tag);
    MarkPassSkips(core, tail, "**", tag);
    LoneStar(rest, tag);
  }

  lemma UnderPassCopies(s: string, start: bool)
    requires s != "" && s[0] != '_' && (|s| > 1 ==> s[1] != '_')
    ensures UnderPass(s, start) == [s[0]] + UnderPass(s[1..], false)
  {
    hide EmphasisEnd, Tagged, IsWord;
  }

  lemma UnderPassAnywhere(s: string)
    requires s == "" || s[0] != '_'
    ensures UnderPass(s, true) == UnderPass(s, false)
  {
    hide EmphasisEnd, Tagged, IsWord;
  }

  lemma {:induction false} UnderPassSkips(a: string, b: string, start: bool)
    requires '_' !in a && (b == "" || b[0] != '_')
    ensures UnderPass(a + b, start) == a + UnderPass(b, false)
  {
    hide UnderPass;
    var s := a + b;
    if a == "" {
      assert s == b;
      UnderPassAnywhere(b);
    } else {
      assert s[0] == a[0] && s[1..] == a[1..] + b;
      assert |s| > 1 ==> s[1] == if |a| > 1 then a[1] else b[0];
      UnderPassCopies(s, start);
      UnderPassSkips(a[1..], b, false);
      assert [a[0]] + a[1..] == a;
    }
  }

  lemma {:induction false} IndexOfFinds(core: string, rest: string, c: char)
    requires c !in core
    ensures IndexOf(core + [c] + rest, c) == |core|
  {
    var s := core + [c] + rest;
    if core != "" {
      assert s[0] == core[0] && s[1..] == core[1..] + [c] + rest;
      IndexOfFinds(core[1..], rest, c);
    }
  }

  lemma EmphasisFound(core: string, rest: string)
    requires '_' !in core && rest != "" && !IsWord(rest[0])
    ensures EmphasisEnd(core + ['_'] + rest) == |core|
  {
    hide IndexOf, IsWord;
    IndexOfFinds(core, rest, '_');
    assert (core + ['_'] + rest)[|core| + 1] == rest[0];
  }

  /** The underscore pass opens emphasis after a character like the `>` of a tag. */
  lemma UnderPassEmphasis(c: char, core: string, rest: string)
    requires !IsWord(c) && core != "" && '_' !in core && rest != "" && !IsWord(rest[0])
    ensures UnderPass([c] + Delimited("_", core) + rest, false) == [c] + (Tagged("em", core) + UnderPass(rest, false))
  {
    hide Tagged, IndexOf, EmphasisEnd, IsWord;
    var s := [c] + Delimited("_", core) + rest;
    assert s[0] == c && s[1] == '_';
    assert s[2..] == core + ['_'] + rest;
    EmphasisFound(core, rest);
    assert s[2..|core| + 2] == core && s[|core| + 3..] == rest;
  }

  /** Underscores between the tags of a bold run become emphasis. */
  lemma UnderPassTags(core: string, rest: string, start: bool)
    requires core != "" && '_' !in core && (rest == "" || rest[0] != '_')
    ensures UnderPass(Tagged("strong", Delimited("_", core)) + rest, start)
         == Tagged("strong", Tagged("em", core)) + UnderPass(rest, false)
  {
    hide UnderPass, Delimited;
    var close := "</" + "strong" + ">";
    var s := ">" + Delimited("_", core) + (close + rest);
    assert Tagged("strong", Delimited("_", core)) + rest == ("<" + "strong") + s;
    UnderPassSkips("<" + "strong", s, start);
    UnderPassEmphasis('>', core, close + rest);
    UnderPassSkips(close, rest, false);
    Regroup("<" + "strong", ">", Tagged("em", core), close, UnderPass(rest, false));
  }

  lemma Regroup(a: string, b: string, c: string, d: string, e: string)
    ensures a + (b + (c + (d + e))) == a + b + c + d + e
  {
  }

  // ----- the marks survive -----

  predicate FreeOfDelimiters(s: string) {
    '`' !in s && '*' !in s && '_' !in s && '[' !in s
  }

  /** The text holds no delimiter, and a marked core no line break. */
  predicate Clean(run: Run) {
    && FreeOfDelimiters(run.text)
    && (Marked(run) ==> forall c | c in Split(run.text).core :: !IsLineTerminator(c))
  }

  predicate AllClean(runs: seq<Run>) {
    forall i | 0 <= i < |runs| :: Clean(runs[i])
  }

  /** What follows begins with a delimiter: the first non-empty run is marked, without a leading
      space that would stay outside the mark. */
  predicate StartsMarked(runs: seq<Run>) {
    runs != [] &&
    if runs[0].text == "" then StartsMarked(runs[1..]) else Marked(runs[0]) && !IsSpace(runs[0].text[0])
  }

  /** The first run is only italic, and a marked one follows at once. */
  predicate Touches(runs: seq<Run>) {
    && runs != [] && Marked(runs[0]) && !runs[0].bold && Split(runs[0].text).trail == ""
    && StartsMarked(runs[1..])
  }

  /** No run that is only italic touches a marked one. */
  predicate Separated(runs: seq<Run>) {
    runs != [] ==> Separated(runs[1..]) && !Touches(runs)
  }

  /** The next run that is not empty, if there is one, has other marks than these. */
  predicate DiffersFromNext(bold: bool, italic: bool, rest: seq<Run>) {
    rest != [] ==>
      if rest[0].text == "" then DiffersFromNext(bold, italic, rest[1..])
      else bold != rest[0].bold || italic != rest[0].italic
  }

  /** Neighbouring runs differ in their marks: an editor joins those that do not. */
  predicate Merged(runs: seq<Run>) {
    runs != [] ==> Merged(runs[1..]) && (runs[0].text == "" || DiffersFromNext(runs[0].bold, runs[0].italic, runs[1..]))
  }

  /** White space, then a core that neither starts nor ends with any, then white space. */
  lemma SplitIsExact(text: string)
    ensures var p := Split(text);
      && text == p.lead + p.core + p.trail && AllSpace(p.lead) && AllSpace(p.trail)
      && (p.core != "" ==> !IsSpace(p.core[0]) && !IsSpace(p.core[|p.core| - 1]))
  {
    hide TrimStart, TrimEnd, AllSpace, IsSpace;
    TrimStartSplits(text);
    TrimEndSplits(TrimStart(text));
    var p := Split(text);
    assert text == p.lead + (p.core + p.trail);
    if p.core != "" { assert p.core[0] == TrimStart(text)[0]; }
  }

  lemma CleanParts(run: Run)
    requires Clean(run)
    ensures var p := Split(run.text);
            FreeOfDelimiters(p.lead) && FreeOfDelimiters(p.core) && FreeOfDelimiters(p.trail)
  {
    hide Split;
    SplitIsExact(run.text);
    var p := Split(run.text);
    assert forall x | x in p.lead || x in p.core || x in p.trail :: x in p.lead + p.core + p.trail;
  }

  /** A run's first character is a star only if the run starts with its mark. */
  lemma FirstCharacter(run: Run)
    requires Clean(run)
    ensures run.text == "" <==> TextToMarkdown(run) == ""
    ensures TextToMarkdown(run) != "" && TextToMarkdown(run)[0] == '*' ==> Marked(run) && !IsSpace(run.text[0])
  {
    hide Split;
    SplitIsExact(run.text);
    CleanParts(run);
    var p := Split(run.text);
    if p.core != "" {
      var core := Delimit(p.core, run.bold, run.italic);
      assert core != "" && (core[0] == '*' ==> run.bold || run.italic);
      assert TextToMarkdown(run)[0] == if p.lead != "" then p.lead[0] else core[0];
      assert run.text[0] == if p.lead != "" then p.lead[0] else p.core[0];
    }
  }

  lemma {:induction false} StarMeansMarked(runs: seq<Run>)
    requires AllClean(runs)
    ensures InlineToMarkdown(runs) != "" && InlineToMarkdown(runs)[0] == '*' ==> StartsMarked(runs)
  {
    hide TextToMarkdown, Clean, Marked;
    if runs != [] {
      FirstCharacter(runs[0]);
      StarMeansMarked(runs[1..]);
      var first := TextToMarkdown(runs[0]);
      if first == "" { assert first + InlineToMarkdown(runs[1..]) == InlineToMarkdown(runs[1..]); }
    }
  }

  /** The core after the bold pass, and after both star passes. */
  function Bolded(core: string, bold: bool, italic: bool): string {
    if !bold then Delimit(core, bold, italic)
    else Tagged("strong", if italic then Delimited("_", core) else core)
  }

  function Starred(core: string, bold: bool, italic: bool): string {
    if !bold && italic then Tagged("em", core) else Bolded(core, bold, italic)
  }

  function Finished(core: string, bold: bool, italic: bool): string {
    if bold && italic then Tagged("strong", Tagged("em", core)) else Starred(core, bold, italic)
  }

  /** A run at one of the stages. */
  datatype Stage = Written | AfterBold | AfterStar | Done

  function CoreAt(stage: Stage, core: string, bold: bool, italic: bool): string {
    match stage
    case Written => Delimit(core, bold, italic)
    case AfterBold => Bolded(core, bold, italic)
    case AfterStar => Starred(core, bold, italic)
    case Done => Finished(core, bold, italic)
  }

  function At(stage: Stage, run: Run): string {
    var parts := Split(run.text);
    if parts.core == "" then run.text else Around(parts, CoreAt(stage, parts.core, run.bold, run.italic))
  }

  function AllAt(stage: Stage, runs: seq<Run>): string {
    if runs == [] then "" else At(stage, runs[0]) + AllAt(stage, runs[1..])
  }

  lemma Reassociate(parts: Parts, core: string, rest: string)
    ensures Around(parts, core) + rest == parts.lead + (core + (parts.trail + rest))
  {
  }

  lemma BoldCore(core: string, rest: string, bold: bool, italic: bool)
    requires core != "" && FreeOfDelimiters(core)
    requires bold || italic ==> forall c | c in core :: !IsLineTerminator(c)
    requires !bold && italic ==> rest == "" || rest[0] != '*'
    ensures MarkPass(Delimit(core, bold, italic) + rest, "**", "strong")
         == Bolded(core, bold, italic) + MarkPass(rest, "**", "strong")
  {
    hide MarkPass, Tagged;
    if bold && italic {
      var inner := Delimited("_", core);
      assert forall c | c in inner :: c == '_' || c in core;
      MarkPassTags(inner, rest, "**", "strong");
    } else if bold {
      MarkPassTags(core, rest, "**", "strong");
    } else if italic {
      BoldPassSkipsItalic(core, rest, "strong");
    } else {
      MarkPassSkips(core, rest, "**", "strong");
    }
  }

  lemma StarCore(core: string, rest: string, bold: bool, italic: bool)
    requires core != "" && FreeOfDelimiters(core)
    requires bold || italic ==> forall c | c in core :: !IsLineTerminator(c)
    ensures MarkPass(Bolded(core, bold, italic) + rest, "*", "em")
      == Starred(core, bold, italic) + MarkPass(rest, "*", "em")
  {
    hide MarkPass;
    if !bold && italic {
      MarkPassTags(core, rest, "*", "em");
    } else {
      assert '*' !in Bolded(core, bold, italic);
      MarkPassSkips(Bolded(core, bold, italic), rest, "*", "em");
    }
  }

  lemma UnderCore(core: string, rest: string, bold: bool, italic: bool, start: bool)
    requires core != "" && FreeOfDelimiters(core) && (rest == "" || rest[0] != '_')
    ensures UnderPass(Starred(core, bold, italic) + rest, start)
      == Finished(core, bold, italic) + UnderPass(rest, false)
  {
    hide UnderPass;
    if bold && italic {
      UnderPassTags(core, rest, start);
    } else {
      assert '_' !in Starred(core, bold, italic);
      UnderPassSkips(Starred(core, bold, italic), rest, start);
    }
  }

  lemma BoldRun(run: Run, rest: string)
    requires Clean(run)
    requires Marked(run) && !run.bold && Split(run.text).trail == "" ==> rest == "" || rest[0] != '*'
    ensures MarkPass(At(Written, run) + rest, "**", "strong") == At(AfterBold, run) + MarkPass(rest, "**", "strong")
  {
    hide MarkPass, Split, Delimit, Bolded;
    SplitIsExact(run.text);
    CleanParts(run);
    var p := Split(run.text);
    if p.core == "" {
      MarkPassSkips(run.text, rest, "**", "strong");
    } else {
      var core, tail := Delimit(p.core, run.bold, run.italic), p.trail + rest;
      assert p.trail != "" ==> tail[0] == p.trail[0];
      Reassociate(p, core, rest);
      MarkPassSkips(p.lead, core + tail, "**", "strong");
      BoldCore(p.core, tail, run.bold, run.italic);
      MarkPassSkips(p.trail, rest, "**", "strong");
      Reassociate(p, Bolded(p.core, run.bold, run.italic), MarkPass(rest, "**", "strong"));
    }
  }

  lemma StarRun(run: Run, rest: string)
    requires Clean(run)
    ensures MarkPass(At(AfterBold, run) + rest, "*", "em") == At(AfterStar, run) + MarkPass(rest, "*", "em")
  {
    hide MarkPass, Split, Starred, Bolded;
    SplitIsExact(run.text);
    CleanParts(run);
    var p := Split(run.text);
    if p.core == "" {
      MarkPassSkips(run.text, rest, "*", "em");
    } else {
      var core, tail := Bolded(p.core, run.bold, run.italic), p.trail + rest;
      Reassociate(p, core, rest);
      MarkPassSkips(p.lead, core + tail, "*", "em");
      StarCore(p.core, tail, run.bold, run.italic);
      MarkPassSkips(p.trail, rest, "*", "em");
      Reassociate(p, Starred(p.core, run.bold, run.italic), MarkPass(rest, "*", "em"));
    }
  }

  lemma CoreStartsPlain(core: string, rest: string, bold: bool, italic: bool)
    requires core != "" && FreeOfDelimiters(core)
    ensures (Starred(core, bold, italic) + rest)[0] != '_'
  {
  }

  lemma UnderRun(run: Run, rest: string, start: bool)
    requires Clean(run) && (rest == "" || rest[0] != '_')
    ensures UnderPass(At(AfterStar, run) + rest, start) == At(Done, run) + UnderPass(rest, false)
  {
    hide UnderPass, Split, Starred, Finished;
    SplitIsExact(run.text);
    CleanParts(run);
    var p := Split(run.text);
    if p.core == "" {
      UnderPassSkips(run.text, rest, start);
    } else {
      var core, tail := Starred(p.core, run.bold, run.italic), p.trail + rest;
      assert p.trail != "" ==> tail[0] == p.trail[0];
      CoreStartsPlain(p.core, tail, run.bold, run.italic);
      Reassociate(p, core, rest);
      UnderPassSkips(p.lead, core + tail, start);
      UnderCore(p.core, tail, run.bold, run.italic, false);
      UnderPassSkips(p.trail, rest, false);
      Reassociate(p, Finished(p.core, run.bold, run.italic), UnderPass(rest, false));
    }
  }

  lemma {:induction false} StagesAreWriterAndReader(runs: seq<Run>)
    ensures AllAt(Written, runs) == InlineToMarkdown(runs) && AllAt(Done, runs) == HtmlOf(runs)
  {
    if runs != [] {
      StagesAreWriterAndReader(runs[1..]);
      RunStages(runs[0]);
    }
  }

  lemma RunStages(run: Run)
    ensures At(Written, run) == TextToMarkdown(run) && At(Done, run) == Html(run)
  {
    hide Split, Around, Tagged, Delimited;
  }

  lemma {:induction false} BoldPassOf(runs: seq<Run>)
    requires AllClean(runs) && Separated(runs)
    ensures MarkPass(AllAt(Written, runs), "**", "strong") == AllAt(AfterBold, runs)
  {
    hide MarkPass, At, Clean;
    if runs != [] {
      StagesAreWriterAndReader(runs[1..]);
      StarMeansMarked(runs[1..]);
      BoldRun(runs[0], AllAt(Written, runs[1..]));
      BoldPassOf(runs[1..]);
    } else {
      MarkPassSkips("", "", "**", "strong");
      NothingToDo();
    }
  }

  lemma NothingToDo()
    ensures MarkPass("", "**", "strong") == "" && MarkPass("", "*", "em") == ""
    ensures UnderPass("", true) == "" && UnderPass("", false) == ""
  {
  }

  lemma {:induction false} StarPassOf(runs: seq<Run>, rest: string)
    requires AllClean(runs)
    ensures MarkPass(AllAt(AfterBold, runs) + rest, "*", "em") == AllAt(AfterStar, runs) + MarkPass(rest, "*", "em")
  {
    hide MarkPass, At, Clean;
    if runs != [] {
      var more := AllAt(AfterBold, runs[1..]);
      assert At(AfterBold, runs[0]) + more + rest == At(AfterBold, runs[0]) + (more + rest);
      StarRun(runs[0], more + rest);
      StarPassOf(runs[1..], rest);
    } else {
      assert "" + rest == rest && "" + MarkPass(rest, "*", "em") == MarkPass(rest, "*", "em");
    }
  }

  lemma RunStartsPlain(run: Run)
    requires Clean(run)
    ensures At(AfterStar, run) == "" || At(AfterStar, run)[0] != '_'
  {
    hide Split, Starred;
    SplitIsExact(run.text);
    CleanParts(run);
    var p := Split(run.text);
    if p.core != "" {
      CoreStartsPlain(p.core, p.trail, run.bold, run.italic);
      var core := Starred(p.core, run.bold, run.italic);
      assert p.lead + core + p.trail == p.lead + (core + p.trail);
    }
  }

  lemma {:induction false} NoUnderscoreFirst(runs: seq<Run>)
    requires AllClean(runs)
    ensures AllAt(AfterStar, runs) == "" || AllAt(AfterStar, runs)[0] != '_'
  {
    hide At, Clean;
    if runs != [] {
      RunStartsPlain(runs[0]);
      NoUnderscoreFirst(runs[1..]);
    }
  }

  lemma {:induction false} UnderPassOf(runs: seq<Run>, rest: string, start: bool)
    requires AllClean(runs) && (rest == "" || rest[0] != '_')
    ensures UnderPass(AllAt(AfterStar, runs) + rest, start) == AllAt(Done, runs) + UnderPass(rest, false)
  {
    hide UnderPass, At, Clean;
    if runs != [] {
      var more := AllAt(AfterStar, runs[1..]);
      NoUnderscoreFirst(runs[1..]);
      assert At(AfterStar, runs[0]) + more + rest == At(AfterStar, runs[0]) + (more + rest);
      UnderRun(runs[0], more + rest, start);
      UnderPassOf(runs[1..], rest, false);
    } else {
      assert "" + rest == rest;
      UnderPassAnywhere(rest);
    }
  }

  lemma RunHasNoOther(run: Run)
    requires Clean(run)
    ensures '`' !in At(Written, run) && '[' !in At(Done, run)
  {
    hide Split;
    SplitIsExact(run.text);
    CleanParts(run);
    var p := Split(run.text);
    assert forall c | c in Delimit(p.core, run.bold, run.italic) :: c in p.core || c == '*' || c == '_';
    assert '[' !in Finished(p.core, run.bold, run.italic);
  }

  lemma {:induction false} NoOtherDelimiters(runs: seq<Run>)
    requires AllClean(runs)
    ensures '`' !in AllAt(Written, runs) && '[' !in AllAt(Done, runs)
  {
    hide At, Clean;
    if runs != [] {
      RunHasNoOther(runs[0]);
      NoOtherDelimiters(runs[1..]);
    }
  }

  /** Reading the serialised runs gives exactly the document's nesting of bold and italic, with
      edge spaces outside the marks. */
  lemma MarksSurvive(runs: seq<Run>)
    requires AllClean(runs) && Separated(runs)
    ensures MdInline(InlineToMarkdown(runs)) == HtmlOf(runs)
  {
    StagesAreWriterAndReader(runs);
    NoOtherDelimiters(runs);
    CodePassSkips(InlineToMarkdown(runs));
    BoldPassOf(runs);
    StarPassOf(runs, "");
    UnderPassOf(runs, "", true);
    assert forall stage :: AllAt(stage, runs) + "" == AllAt(stage, runs);
    NothingToDo();
    LinkPassSkips(HtmlOf(runs));
  }

  // ----- and only then -----

  const OPENING := "<" + "strong" + ">"

  /** What the bold pass makes of an italic core that a bold run touches, and what is due instead. */
  function Swallowed(lead: string, core: string, rest: string): string {
    lead + (Delimited("*", core + OPENING) + rest)
  }

  function Due(lead: string, core: string, rest: string): string {
    lead + (Tagged("em", core) + rest)
  }

  /** The run that an italic one touches is bold. */
  lemma {:induction false} NextIsBold(runs: seq<Run>) returns (inner: string, tail: string)
    requires AllClean(runs) && StartsMarked(runs) && DiffersFromNext(false, true, runs)
    ensures AllAt(Written, runs) == Delimited("**", inner) + tail
    ensures inner != "" && '*' !in inner && forall c | c in inner :: !IsLineTerminator(c)
  {
    hide Split, Clean;
    if runs[0].text == "" {
      inner, tail := NextIsBold(runs[1..]);
      EmptyRun(runs[0]);
    } else {
      inner, tail := BoldWritten(runs[0], AllAt(Written, runs[1..]));
    }
  }

  lemma EmptyRun(run: Run)
    requires run.text == ""
    ensures forall stage :: At(stage, run) == ""
  {
    TrimmedIsFixed("");
  }

  lemma BoldWritten(run: Run, rest: string) returns (inner: string, tail: string)
    requires Clean(run) && Marked(run) && run.bold && run.text != "" && !IsSpace(run.text[0])
    ensures At(Written, run) + rest == Delimited("**", inner) + tail
    ensures inner != "" && '*' !in inner && forall c | c in inner :: !IsLineTerminator(c)
  {
    hide Split, IsSpace;
    var p := Split(run.text);
    CleanParts(run);
    NoLead(run.text);
    inner := if run.italic then Delimited("_", p.core) else p.core;
    tail := p.trail + rest;
    assert forall c | c in inner :: c == '_' || c in p.core;
    Reassociate(p, Delimited("**", inner), rest);
    assert "" + (Delimited("**", inner) + tail) == Delimited("**", inner) + tail;
  }

  lemma NoLead(text: string)
    requires text != "" && !IsSpace(text[0])
    ensures Split(text).lead == ""
  {
  }

  /** The third star of `***` goes inside the bold text. */
  lemma StarInside(inner: string, tail: string)
    requires inner != "" && '*' !in inner && forall c | c in inner :: !IsLineTerminator(c)
    ensures MarkPass("*" + (Delimited("**", inner) + tail), "**", "strong")
         == Tagged("strong", "*" + inner) + MarkPass(tail, "**", "strong")
  {
    hide LazyEnd, Tagged;
    var s, core := "*" + (Delimited("**", inner) + tail), "*" + inner;
    var rest := core + "**" + tail;
    assert "**" <= s && s[2..] == rest;
    assert core[1..] == inner;
    LazyEndFinds(core, "**", tail, 1);
    FirstIsFree(rest);
    assert rest[..|core|] == core && rest[|core| + 2..] == tail;
  }

  lemma FirstIsFree(s: string)
    requires s != "" && !IsLineTerminator(s[0])
    ensures LazyEnd(s, "**", 0) == LazyEnd(s, "**", 1)
  {
  }

  lemma BoldOverItalic(lead: string, core: string, inner: string, tail: string) returns (rest: string)
    requires FreeOfDelimiters(lead) && FreeOfDelimiters(core) && core != ""
    requires inner != "" && '*' !in inner && forall c | c in inner :: !IsLineTerminator(c)
    ensures MarkPass(lead + (Delimited("*", core) + (Delimited("**", inner) + tail)), "**", "strong")
         == Swallowed(lead, core, rest)
  {
    hide MarkPass, Tagged, IsLineTerminator;
    var after := Delimited("**", inner) + tail;
    MarkPassSkips(lead, Delimited("*", core) + after, "**", "strong");
    assert Delimited("*", core) + after == "*" + (core + ("*" + after));
    assert (core + ("*" + after))[0] == core[0];
    LoneStar(core + ("*" + after), "strong");
    MarkPassSkips(core, "*" + after, "**", "strong");
    StarInside(inner, tail);
    rest := inner + ("</" + "strong" + ">" + MarkPass(tail, "**", "strong"));
    OpenedStar(core, inner, MarkPass(tail, "**", "strong"));
  }

  /** The bold pass on a document that starts with touching runs. */
  lemma BoldTouches(runs: seq<Run>) returns (lead: string, core: string, rest: string, more: string)
    requires AllClean(runs) && Merged(runs) && Touches(runs)
    ensures FreeOfDelimiters(lead) && FreeOfDelimiters(core) && core != ""
      && forall c | c in core :: !IsLineTerminator(c)
    ensures MarkPass(AllAt(Written, runs), "**", "strong") == Swallowed(lead, core, rest)
    ensures AllAt(Done, runs) == Due(lead, core, more)
  {
    hide Split, At, Clean, MarkPass, Tagged, Delimited, StartsMarked, DiffersFromNext, Swallowed, FreeOfDelimiters;
    var run := runs[0];
    var p := Split(run.text);
    assert Clean(run);
    CleanParts(run);
    TouchingParts(run);
    var inner, tail := NextIsBold(runs[1..]);
    lead, core, more := p.lead, p.core, AllAt(Done, runs[1..]);
    var after := Delimited("**", inner) + tail;
    Reassociate(p, Delimited("*", core), after);
    Reassociate(p, Tagged("em", core), more);
    assert "" + after == after && "" + more == more;
    rest := BoldOverItalic(lead, core, inner, tail);
  }

  lemma TouchingParts(run: Run)
    requires Clean(run) && Marked(run) && !run.bold
    ensures run.italic && run.text != "" && Split(run.text).core != ""
    ensures forall c | c in Split(run.text).core :: !IsLineTerminator(c)
    ensures var p := Split(run.text);
      && At(Written, run) == Around(p, Delimited("*", p.core)) && At(Done, run) == Around(p, Tagged("em", p.core))
  {
    hide Tagged, Delimited;
    EmptyRun(run.(text := ""));
  }

  lemma OpenedStar(core: string, inner: string, rest: string)
    ensures "*" + (core + (Tagged("strong", "*" + inner) + rest))
         == Delimited("*", core + OPENING) + (inner + ("</" + "strong" + ">" + rest))
  {
  }

  /** The bold pass goes wrong at the first touching pair; everything in front of it is as it should be. */
  lemma {:induction false} BoldBreaks(runs: seq<Run>)
    returns (good: seq<Run>, lead: string, core: string, rest: string, more: string)
    requires AllClean(runs) && Merged(runs) && !Separated(runs)
    ensures AllClean(good)
    ensures FreeOfDelimiters(lead) && FreeOfDelimiters(core) && core != ""
      && forall c | c in core :: !IsLineTerminator(c)
    ensures MarkPass(AllAt(Written, runs), "**", "strong") == AllAt(AfterBold, good) + Swallowed(lead, core, rest)
    ensures AllAt(Done, runs) == AllAt(Done, good) + Due(lead, core, more)
  {
    hide MarkPass, At, Clean, Swallowed, Due, Marked, FreeOfDelimiters, StartsMarked, DiffersFromNext, Split;
    hide IsLineTerminator;
    if Touches(runs) {
      good := [];
      lead, core, rest, more := BoldTouches(runs);
      assert "" + Swallowed(lead, core, rest) == Swallowed(lead, core, rest);
      assert "" + Due(lead, core, more) == Due(lead, core, more);
    } else {
      var before: seq<Run>;
      before, lead, core, rest, more := BoldBreaks(runs[1..]);
      good := [runs[0]] + before;
      StagesAreWriterAndReader(runs[1..]);
      StarMeansMarked(runs[1..]);
      BoldRun(runs[0], AllAt(Written, runs[1..]));
      assert good[1..] == before;
      assert forall stage, x: string ::
        At(stage, runs[0]) + (AllAt(stage, before) + x) == At(stage, runs[0]) + AllAt(stage, before) + x;
    }
  }

  /** The passes after the bold one keep the damage: the opening tag stands before the closing one. */
  lemma DamageStays(good: seq<Run>, lead: string, core: string, rest: string) returns (shown: string)
    requires AllClean(good) && FreeOfDelimiters(lead) && FreeOfDelimiters(core)
    requires core != "" && forall c | c in core :: !IsLineTerminator(c)
    ensures LinkPass(UnderPass(MarkPass(AllAt(AfterBold, good) + Swallowed(lead, core, rest), "*", "em"), true))
         == AllAt(Done, good) + (lead + "<em>" + core + "<s") + shown
  {
    hide MarkPass, UnderPass, LinkPass, At, Clean;
    StarPassOf(good, Swallowed(lead, core, rest));
    MarkPassSkips(lead, Delimited("*", core + OPENING) + rest, "*", "em");
    MarkPassTags(core + OPENING, rest, "*", "em");
    var front, back := lead + "<em>" + core + "<", "strong></em>" + MarkPass(rest, "*", "em");
    FrontAndBack(lead, core, MarkPass(rest, "*", "em"));
    UnderPassOf(good, front + back, true);
    UnderPassSkips(front, back, false);
    UnderPassCopies(back, false);
    NoOtherDelimiters(good);
    var x := AllAt(Done, good) + (lead + "<em>" + core + "<s");
    var y := UnderPass(back[1..], false);
    assert AllAt(Done, good) + (front + (['s'] + y)) == x + y;
    LinkPassCopies(x, y);
    shown := LinkPass(y);
  }

  lemma FrontAndBack(lead: string, core: string, rest: string)
    requires FreeOfDelimiters(lead) && FreeOfDelimiters(core)
    ensures var front, back := lead + "<em>" + core + "<", "strong></em>" + rest;
      && lead + (Tagged("em", core + OPENING) + rest) == front + back
      && '_' !in front && front[0] != '_' && '[' !in front && back[0] == 's' && back[1] == 't'
  {
    var front, back := lead + "<em>" + core + "<", "strong></em>" + rest;
    assert "<" + "em" + ">" == "<em>" && "</" + "em" + ">" == "</em>" && OPENING == "<" + "strong>";
    assert lead + (Tagged("em", core + OPENING) + rest) == front + back;
  }

  /** Runs that touch are read back wrong, in every document. */
  lemma TouchingBreaks(runs: seq<Run>)
    requires AllClean(runs) && Merged(runs) && !Separated(runs)
    ensures MdInline(InlineToMarkdown(runs)) != HtmlOf(runs)
  {
    hide MarkPass, UnderPass, LinkPass, CodePass, AllAt, AllClean, FreeOfDelimiters, Merged, Separated, Swallowed, Due;
    hide InlineToMarkdown, HtmlOf, IsLineTerminator;
    StagesAreWriterAndReader(runs);
    NoOtherDelimiters(runs);
    CodePassSkips(InlineToMarkdown(runs));
    var good, lead, core, rest, more := BoldBreaks(runs);
    var shown := DamageStays(good, lead, core, rest);
    OpeningIsNotClosing(AllAt(Done, good), lead, core, shown, more);
  }

  lemma OpeningIsNotClosing(good: string, lead: string, core: string, shown: string, more: string)
    ensures good + (lead + "<em>" + core + "<s") + shown != good + Due(lead, core, more)
  {
    var x := good + (lead + "<em>" + core + "<");
    assert good + (lead + "<em>" + core + "<s") + shown == x + ("s" + shown);
    assert good + Due(lead, core, more) == x + ("/em>" + more);
    assert (x + ("s" + shown))[|x|] == 's' && (x + ("/em>" + more))[|x|] == '/';
  }

  /** For clean text whose neighbouring runs differ, the marks survive if and only if no run that is
      only italic touches a marked one. */
  lemma MarksSurviveIff(runs: seq<Run>)
    requires AllClean(runs) && Merged(runs)
    ensures MdInline(InlineToMarkdown(runs)) == HtmlOf(runs) <==> Separated(runs)
  {
    if Separated(runs) { MarksSurvive(runs); } else { TouchingBreaks(runs); }
  }

  /** An italic run followed at once by a bold one. */
  const TOUCHING := [Run("a", false, true), Run("b", true, false)]

  /** The smallest such document. */
  lemma TouchingRunsBreak()
    ensures AllClean(TOUCHING) && Merged(TOUCHING) && !Separated(TOUCHING)
    ensures MdInline(InlineToMarkdown(TOUCHING)) != HtmlOf(TOUCHING)
  {
    hide Clean, Marked, Split, MdInline, InlineToMarkdown, HtmlOf;
    var a, b := TOUCHING[0], TOUCHING[1];
    OneLetter('a', false, true);
    OneLetter('b', true, false);
    assert TOUCHING[1..] == [b] && [b][1..] == [];
    TouchingBreaks(TOUCHING);
  }

  lemma OneLetter(c: char, bold: bool, italic: bool)
    requires !IsSpace(c) && FreeOfDelimiters([c]) && !IsLineTerminator(c)
    ensures var run := Run([c], bold, italic);
      Clean(run) && Split([c]) == Parts("", [c], "") && Marked(run) == (bold || italic)
  {
    TrimmedIsFixed([c]);
    assert [c][..0] == "" && [c][1..] == "";
  }

  // ----- with the escaping in front -----

  function Escaped(runs: seq<Run>): seq<Run> {
    if runs == [] then [] else [runs[0].(text := Esc(runs[0].text))] + Escaped(runs[1..])
  }

  lemma {:induction false} EscAppend(a: string, b: string)
    ensures Esc(a + b) == Esc(a) + Esc(b)
  {
    if a == "" {
      assert a + b == b;
    } else {
      assert (a + b)[0] == a[0] && (a + b)[1..] == a[1..] + b;
      EscAppend(a[1..], b);
    }
  }

  /** The text that a browser shows for an escaped one. */
  function Unescaped(s: string): string
    decreases |s|
  {
    if "&amp;" <= s then "&" + Unescaped(s[5..])
    else if "&lt;" <= s then "<" + Unescaped(s[4..])
    else if "&gt;" <= s then ">" + Unescaped(s[4..])
    else if "&quot;" <= s then "\"" + Unescaped(s[6..])
    else if s == "" then ""
    else [s[0]] + Unescaped(s[1..])
  }

  /** Escaped text holds no angle bracket and no quote, and it shows as the text it was made of. */
  lemma {:induction false} EscIsSafe(s: string)
    ensures '<' !in Esc(s) && '>' !in Esc(s) && '"' !in Esc(s)
    ensures Unescaped(Esc(s)) == s
  {
    hide Esc, Unescaped;
    NothingEscaped();
    if s != "" {
      assert s == [s[0]] + s[1..];
      EscAppend([s[0]], s[1..]);
      FirstIsSafe(s[0]);
      EscIsSafe(s[1..]);
      ShowsFirst(s[0], Esc(s[1..]));
    }
  }

  lemma NothingEscaped()
    ensures Esc("") == "" && Unescaped("") == ""
  {
  }

  lemma FirstIsSafe(c: char)
    ensures '<' !in Esc([c]) && '>' !in Esc([c]) && '"' !in Esc([c])
  {
    assert [c][1..] == "";
  }

  lemma ShowsFirst(c: char, rest: string)
    ensures Unescaped(Esc([c]) + rest) == [c] + Unescaped(rest)
  {
    var w := Esc([c]);
    var s := w + rest;
    assert s[|w|..] == rest && s[..|w|] == w;
    assert [c][1..] == "";
    if c == '&' {
      assert "&amp;" <= s;
    } else if c == '<' {
      assert "&lt;" <= s && s[1] == 'l';
    } else if c == '>' {
      assert "&gt;" <= s && s[1] == 'g';
    } else if c == '"' {
      assert "&quot;" <= s && s[1] == 'q';
    } else {
      assert s[0] == c;
    }
  }

  lemma {:induction false} EscPlain(s: string)
    requires '&' !in s && '<' !in s && '>' !in s && '"' !in s
    ensures Esc(s) == s
  {
    if s != "" {
      assert s == [s[0]] + s[1..];
      EscPlain(s[1..]);
    }
  }

  lemma {:induction false} EscKeepsOut(s: string, c: char)
    requires c !in s && c !in "&;ampltgquo"
    ensures c !in Esc(s)
  {
    if s != "" {
      assert s == [s[0]] + s[1..];
      EscKeepsOut(s[1..], c);
    }
  }

  lemma EscKeepsClean(s: string)
    ensures FreeOfDelimiters(s) ==> FreeOfDelimiters(Esc(s))
    ensures (forall c | c in s :: !IsLineTerminator(c)) ==> forall c | c in Esc(s) :: !IsLineTerminator(c)
  {
    hide Esc;
    if FreeOfDelimiters(s) {
      EscKeepsOut(s, '`');
      EscKeepsOut(s, '*');
      EscKeepsOut(s, '_');
      EscKeepsOut(s, '[');
    }
    if forall c | c in s :: !IsLineTerminator(c) {
      forall c | c in Esc(s) ensures !IsLineTerminator(c) {
        if IsLineTerminator(c) { EscKeepsOut(s, c); }
      }
    }
  }

  lemma EscKeepsEdge(s: string)
    ensures Esc(s) == "" <==> s == ""
    ensures s != "" ==> IsSpace(Esc(s)[0]) == IsSpace(s[0])
  {
  }

  lemma {:induction false} EscTrimStart(s: string)
    ensures TrimStart(Esc(s)) == Esc(TrimStart(s))
  {
    EscKeepsEdge(s);
    if s != "" && IsSpace(s[0]) {
      assert Esc(s)[1..] == Esc(s[1..]);
      EscTrimStart(s[1..]);
    }
  }

  lemma {:induction false} EscTrimEnd(s: string)
    ensures TrimEnd(Esc(s)) == Esc(TrimEnd(s))
  {
    if s != "" {
      var init, last := s[..|s| - 1], s[|s| - 1];
      assert s == init + [last];
      EscAppend(init, [last]);
      assert Esc([last]) != "" && IsSpace(Esc([last])[|Esc([last])| - 1]) == IsSpace(last);
      if IsSpace(last) {
        assert Esc([last]) == [last];
        assert Esc(s)[..|Esc(s)| - 1] == Esc(init);
        EscTrimEnd(init);
      }
    }
  }

  lemma EscSplit(text: string)
    ensures var p := Split(text); Split(Esc(text)) == Parts(Esc(p.lead), Esc(p.core), Esc(p.trail))
  {
    var p := Split(text);
    var rest := TrimStart(text);
    TrimStartSplits(text);
    TrimEndSplits(rest);
    EscTrimStart(text);
    EscTrimEnd(rest);
    assert text == p.lead + rest && rest == p.core + p.trail;
    EscAppend(p.lead, rest);
    EscAppend(p.core, p.trail);
  }

  /** Escaping the written Markdown is writing the escaped text. */
  lemma EscRun(run: Run)
    ensures Esc(TextToMarkdown(run)) == TextToMarkdown(run.(text := Esc(run.text)))
  {
    hide Split;
    EscSplit(run.text);
    var p := Split(run.text);
    EscKeepsEdge(p.core);
    if p.core != "" {
      EscAppend(p.lead + Delimit(p.core, run.bold, run.italic), p.trail);
      EscAppend(p.lead, Delimit(p.core, run.bold, run.italic));
      EscDelimit(p.core, run.bold, run.italic);
    }
  }

  lemma EscDelimited(mark: string, x: string)
    requires mark in {"**", "*", "_"}
    ensures Esc(Delimited(mark, x)) == Delimited(mark, Esc(x))
  {
    EscPlain(mark);
    EscAppend(mark + x, mark);
    EscAppend(mark, x);
  }

  lemma EscDelimit(core: string, bold: bool, italic: bool)
    ensures Esc(Delimit(core, bold, italic)) == Delimit(Esc(core), bold, italic)
  {
    hide Delimited;
    EscDelimited("_", core);
    EscDelimited("**", core);
    EscDelimited("*", core);
    EscDelimited("**", Delimited("_", core));
  }

  lemma {:induction false} EscRuns(runs: seq<Run>)
    ensures Esc(InlineToMarkdown(runs)) == InlineToMarkdown(Escaped(runs))
  {
    hide TextToMarkdown;
    if runs != [] {
      EscAppend(TextToMarkdown(runs[0]), InlineToMarkdown(runs[1..]));
      EscRun(runs[0]);
      EscRuns(runs[1..]);
    }
  }

  lemma EscRunStays(run: Run)
    ensures var r := run.(text := Esc(run.text));
            && (Clean(run) ==> Clean(r)) && Marked(r) == Marked(run)
            && (Split(r.text).trail == "" <==> Split(run.text).trail == "")
  {
    hide Split;
    var p := Split(run.text);
    EscSplit(run.text);
    EscKeepsClean(run.text);
    EscKeepsClean(p.core);
    EscKeepsEdge(p.core);
    EscKeepsEdge(p.trail);
  }

  lemma {:induction false} EscapedDiffers(bold: bool, italic: bool, runs: seq<Run>)
    ensures DiffersFromNext(bold, italic, Escaped(runs)) == DiffersFromNext(bold, italic, runs)
  {
    if runs != [] {
      EscKeepsEdge(runs[0].text);
      EscapedDiffers(bold, italic, runs[1..]);
      assert Escaped(runs)[1..] == Escaped(runs[1..]);
    }
  }

  lemma {:induction false} EscapedStays(runs: seq<Run>)
    ensures AllClean(runs) ==> AllClean(Escaped(runs))
    ensures StartsMarked(Escaped(runs)) == StartsMarked(runs)
    ensures Separated(Escaped(runs)) == Separated(runs) && Merged(Escaped(runs)) == Merged(runs)
  {
    hide Clean, Marked, Split;
    if runs != [] {
      EscapedStays(runs[1..]);
      EscRunStays(runs[0]);
      EscapedDiffers(runs[0].bold, runs[0].italic, runs[1..]);
      EscKeepsEdge(runs[0].text);
      assert Escaped(runs)[1..] == Escaped(runs[1..]);
      if AllClean(runs) {
        assert forall i | 0 < i < |Escaped(runs)| :: Escaped(runs)[i] == Escaped(runs[1..])[i - 1];
      }
    }
  }

  /** What renderMarkdown displays for a serialised line: the escaped texts under exactly the
      document's marks. */
  lemma MarksSurviveEscaping(runs: seq<Run>)
    requires AllClean(runs) && Separated(runs)
    ensures MdInline(Esc(InlineToMarkdown(runs))) == HtmlOf(Escaped(runs))
  {
    EscRuns(runs);
    EscapedStays(runs);
    MarksSurvive(Escaped(runs));
  }

  /** Exactly under that condition. */
  lemma MarksSurviveEscapingIff(runs: seq<Run>)
    requires AllClean(runs) && Merged(runs)
    ensures MdInline(Esc(InlineToMarkdown(runs))) == HtmlOf(Escaped(runs)) <==> Separated(runs)
  {
    EscRuns(runs);
    EscapedStays(runs);
    MarksSurviveIff(Escaped(runs));
  }
}
