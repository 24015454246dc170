/** Tesbo-Frontend/lib/markdown.ts, the block loop of renderMarkdown: a hand-rolled renderer that
    walks the lines of a comment once and emits one block after another. Blocks here hold the text
    that the source goes on to pass through `mdInline`. The source escapes the text first; module
    Escaping shows that this changes the kind of no line. */
module MarkdownBlocks {
  import opened Text

  datatype Kind =
    | FenceLine | HeadingLine | RuleLine | QuoteLine | TableLine | NumberLine | BulletLine | BlankLine | TextLine

  datatype Block =
    | Code(lines: seq<string>)
    | Title(level: nat, text: string)
    | Rule
    | Quote(lines: seq<string>)
    | Table(lines: seq<string>)
    | Ordered(start: nat, items: seq<string>)
    | Bullets(items: seq<string>)
    | Blank
    | Para(text: string)

  // ----- what a trimmed line is -----

  /** `/^```/`. */
  predicate IsFence(t: string) { "```" <= t }

  /** `/^```\s*$/`, on a trimmed line. */
  predicate IsClosing(t: string) { t == "```" }

  function HashRun(t: string): (n: nat)
    ensures n <= |t|
  {
    if t != "" && t[0] == '#' then 1 + HashRun(t[1..]) else 0
  }

  /** `\s+#+$`: the closing hashes of a heading. */
  predicate IsHashTail(r: string) {
    r != "" && IsSpace(r[0]) && TrimStart(r) != "" && HashRun(TrimStart(r)) == |TrimStart(r)|
  }

  /** The length of the lazy `(.*?)`, or more than `|r|` when a line terminator is in its way. */
  function TitleEnd(r: string): nat {
    if r == "" || IsHashTail(r) then 0
    else if IsLineTerminator(r[0]) then |r| + 1
    else 1 + TitleEnd(r[1..])
  }

  /** `/^(#{1,6})\s+(.*?)(?:\s+#+)?$/`. */
  predicate IsHeading(t: string) {
    var h := HashRun(t);
    1 <= h <= 6 && h < |t| && IsSpace(t[h]) && TitleEnd(TrimStart(t[h..])) <= |TrimStart(t[h..])|
  }

  /** `/^---+$/`. */
  predicate IsRule(t: string) {
    |t| >= 3 && forall i | 0 <= i < |t| :: t[i] == '-'
  }

  predicate IsQuote(t: string) { t != "" && t[0] == '>' }

  predicate IsTable(t: string) { t != "" && t[0] == '|' }

  function DigitRun(t: string): (n: nat)
    ensures n <= |t| && forall i | 0 <= i < n :: IsDigit(t[i])
  {
    if t != "" && IsDigit(t[0]) then 1 + DigitRun(t[1..]) else 0
  }

  /** `/^\d+\. /`. */
  predicate IsNumber(t: string) {
    var d := DigitRun(t);
    d > 0 && d + 1 < |t| && t[d] == '.' && t[d + 1] == ' '
  }

  /** `/^[-*] /`. */
  predicate IsBullet(t: string) {
    |t| > 1 && (t[0] == '-' || t[0] == '*') && t[1] == ' '
  }

  /** The order of the tests in the source. */
  function LineKind(line: string): Kind {
    var t := Trim(line);
    if IsFence(t) then FenceLine
    else if IsHeading(t) then HeadingLine
    else if IsRule(t) then RuleLine
    else if IsQuote(t) then QuoteLine
    else if IsTable(t) then TableLine
    else if IsNumber(t) then NumberLine
    else if IsBullet(t) then BulletLine
    else if t == "" then BlankLine
    else TextLine
  }

  /** The kinds whose neighbouring lines make one block. */
  predicate Merges(k: Kind) {
    k == QuoteLine || k == TableLine || k == NumberLine || k == BulletLine
  }

  /** The test of an inner loop of the source, which does not repeat the ones before it. */
  predicate InRun(k: Kind, t: string) {
    match k
    case QuoteLine => IsQuote(t)
    case TableLine => IsTable(t)
    case NumberLine => IsNumber(t)
    case BulletLine => IsBullet(t)
    case _ => false
  }

  /** It need not repeat them: the four patterns exclude all the others. */
  lemma RunsAreExclusive(k: Kind, line: string)
    requires Merges(k)
    ensures InRun(k, Trim(line)) <==> LineKind(line) == k
  {
    var t := Trim(line);
    if t != "" {
      assert IsFence(t) ==> t[0] == "```"[0];
      assert HashRun(t) > 0 ==> t[0] == '#';
      assert DigitRun(t) > 0 ==> IsDigit(t[0]);
    }
  }

  function DigitValue(c: char): nat
    requires IsDigit(c)
  {
    c as int - '0' as int
  }

  function Natural(digits: string): nat
    requires forall i | 0 <= i < |digits| :: IsDigit(digits[i])
  {
    if digits == "" then 0
    else Natural(digits[..|digits| - 1]) * 10 + DigitValue(digits[|digits| - 1])
  }

  /** A line of a run without its marker. */
  function ItemText(line: string): string {
    var t := Trim(line);
    if IsNumber(t) then t[DigitRun(t) + 2..]
    else if IsBullet(t) then t[2..]
    else if IsQuote(t) then if |t| > 1 && t[1] == ' ' then t[2..] else t[1..]
    else line
  }

  function ItemTexts(lines: seq<string>): (r: seq<string>)
    ensures |r| == |lines|
  {
    seq(|lines|, i requires 0 <= i < |lines| => ItemText(lines[i]))
  }

  function ListStart(line: string): nat {
    var t := Trim(line);
    Natural(t[..DigitRun(t)])
  }

  // ----- blocks and how much each consumes -----

  function RunLength(lines: seq<string>, k: Kind): (n: nat)
    ensures n <= |lines|
  {
    if lines != [] && LineKind(lines[0]) == k then 1 + RunLength(lines[1..], k) else 0
  }

  /** The lines before the closing fence. */
  function CodeLength(lines: seq<string>): (n: nat)
    ensures n <= |lines|
    ensures forall i | 0 <= i < n :: !IsClosing(Trim(lines[i]))
    ensures n < |lines| ==> IsClosing(Trim(lines[n]))
  {
    if lines == [] || IsClosing(Trim(lines[0])) then 0 else 1 + CodeLength(lines[1..])
  }

  function Consumed(lines: seq<string>): (n: nat)
    requires lines != []
    ensures 1 <= n <= |lines|
  {
    var k := LineKind(lines[0]);
    if k == FenceLine then
      var n := CodeLength(lines[1..]);
      if n < |lines| - 1 then n + 2 else n + 1
    else if Merges(k) then RunLength(lines, k)
    else 1
  }

  /** The block made of the lines it consumed. */
  function BlockOf(chunk: seq<string>): Block
    requires chunk != []
  {
    var t := Trim(chunk[0]);
    var last := |chunk| - 1;
    match LineKind(chunk[0])
    case FenceLine => Code(if last > 0 && IsClosing(Trim(chunk[last])) then chunk[1..last] else chunk[1..])
    case HeadingLine =>
      var rest := TrimStart(t[HashRun(t)..]);
      Title(HashRun(t), if TitleEnd(rest) <= |rest| then rest[..TitleEnd(rest)] else rest)
    case RuleLine => Rule
    case QuoteLine => Quote(ItemTexts(chunk))
    case TableLine => Table(chunk)
    case NumberLine => Ordered(ListStart(chunk[0]), ItemTexts(chunk))
    case BulletLine => Bullets(ItemTexts(chunk))
    case BlankLine => Blank
    case TextLine => Para(t)
  }

  /** The line ranges consumed, and the blocks made of them. */
  function Chunks(lines: seq<string>): seq<seq<string>>
    decreases |lines|
  {
    if lines == [] then [] else [lines[..Consumed(lines)]] + Chunks(lines[Consumed(lines)..])
  }

  function Render(lines: seq<string>): seq<Block>
    decreases |lines|
  {
    if lines == [] then []
    else [BlockOf(lines[..Consumed(lines)])] + Render(lines[Consumed(lines)..])
  }

  // ----- the loop -----

  /** An inner loop: from `i`, the lines of the run that starts there. */
  method TakeRun(lines: seq<string>, i: nat, k: Kind) returns (items: seq<string>, next: nat)
    requires i < |lines| && Merges(k) && LineKind(lines[i]) == k
    ensures next == i + RunLength(lines[i..], k) && i < next <= |lines|
    ensures items == ItemTexts(lines[i..next])
  {
    hide Trim, ItemText, InRun, LineKind;
    RunsAreExclusive(k, lines[i]);
    items, next := [], i;
    while next < |lines| && InRun(k, Trim(lines[next]))
      invariant i <= next <= |lines| && items == ItemTexts(lines[i..next])
      invariant RunLength(lines[i..], k) == next - i + RunLength(lines[next..], k)
    {
      RunsAreExclusive(k, lines[next]);
      assert lines[next..][1..] == lines[next + 1..];
      assert lines[i..next + 1] == lines[i..next] + [lines[next]];
      items := items + [ItemText(lines[next])];
      next := next + 1;
    }
    if next < |lines| { RunsAreExclusive(k, lines[next]); }
  }

  /** The fenced branch: every line up to the closing fence, untouched. */
  method TakeCode(lines: seq<string>, i: nat) returns (code: seq<string>, next: nat)
    requires i < |lines|
    ensures var n := CodeLength(lines[i + 1..]);
            code == lines[i + 1..i + 1 + n] && next == i + 1 + n + 1
  {
    hide Trim, IsClosing;
    code, next := [], i + 1;
    while next < |lines| && !IsClosing(Trim(lines[next]))
      invariant i + 1 <= next <= |lines| && code == lines[i + 1..next]
      invariant CodeLength(lines[i + 1..]) == next - i - 1 + CodeLength(lines[next..])
    {
      assert lines[next..][1..] == lines[next + 1..];
      code := code + [lines[next]];
      next := next + 1;
    }
    next := next + 1;
  }

  /** One turn of the outer loop: the block that starts at line `i`, and the line after it. An
      unclosed fence leaves the index one past the end. */
  method TakeBlock(lines: seq<string>, i: nat) returns (block: Block, next: nat)
    requires i < |lines|
    ensures block == BlockOf(lines[i..i + Consumed(lines[i..])])
    ensures next == i + Consumed(lines[i..]) || (next == |lines| + 1 && i + Consumed(lines[i..]) == |lines|)
  {
    hide Trim, ItemTexts, IsFence, IsHeading, IsRule, IsNumber, IsBullet, RunLength, CodeLength, IsClosing;
    var t := Trim(lines[i]);
    var k := LineKind(lines[i]);
    next := i + 1;
    if k == FenceLine {
      var code;
      code, next := TakeCode(lines, i);
      block := Code(code);
      FenceBlock(lines, i);
    } else if k == HeadingLine {
      var title := TrimStart(t[HashRun(t)..]);
      HeadingHasEnd(lines[i]);
      block := Title(HashRun(t), title[..TitleEnd(title)]);
    } else if Merges(k) {
      var items;
      items, next := TakeRun(lines, i, k);
      if k == QuoteLine { block := Quote(items); }
      else if k == TableLine { block := Table(lines[i..next]); }
      else if k == NumberLine { block := Ordered(ListStart(lines[i]), items); }
      else { block := Bullets(items); }
    } else {
      block := if k == RuleLine then Rule else if k == BlankLine then Blank else Para(t);
    }
  }

  lemma HeadingHasEnd(line: string)
    requires LineKind(line) == HeadingLine
    ensures var t := Trim(line);
            var title := TrimStart(t[HashRun(t)..]);
            TitleEnd(title) <= |title|
  {
  }

  lemma SliceOfSlice(s: seq<string>, i: nat, j: nat, a: nat, b: nat)
    requires i <= j <= |s| && a <= b <= j - i
    ensures s[i..j][a..b] == s[i + a..i + b]
  {
    var x, y := s[i..j][a..b], s[i + a..i + b];
    assert |x| == |y| && forall k | 0 <= k < |x| :: x[k] == s[i + a + k] == y[k];
  }

  lemma FenceBlock(lines: seq<string>, i: nat)
    requires i < |lines| && LineKind(lines[i]) == FenceLine
    ensures var n := CodeLength(lines[i + 1..]);
            && Consumed(lines[i..]) == (if n < |lines| - i - 1 then n + 2 else n + 1)
            && BlockOf(lines[i..i + Consumed(lines[i..])]) == Code(lines[i + 1..i + 1 + n])
  {
    hide Trim, IsClosing, CodeLength, ItemTexts;
    var n := CodeLength(lines[i + 1..]);
    assert lines[i..][1..] == lines[i + 1..];
    var chunk := lines[i..i + Consumed(lines[i..])];
    assert |chunk| == if n < |lines| - i - 1 then n + 2 else n + 1;
    if n < |lines| - i - 1 {
      assert chunk[|chunk| - 1] == lines[i + 1..][n];
      assert chunk == lines[i..i + n + 2];
      SliceOfSlice(lines, i, i + n + 2, 1, n + 1);
    } else {
      assert chunk[1..] == lines[i + 1..i + 1 + n];
      assert n > 0 ==> chunk[|chunk| - 1] == lines[i + 1..][n - 1];
    }
  }

  lemma RenderStep(lines: seq<string>, i: nat)
    requires i < |lines|
    ensures var n := Consumed(lines[i..]);
            Render(lines[i..]) == [BlockOf(lines[i..i + n])] + Render(lines[i + n..])
  {
    hide BlockOf, Consumed;
    var n := Consumed(lines[i..]);
    assert lines[i..][..n] == lines[i..i + n] && lines[i..][n..] == lines[i + n..];
  }

  /** renderMarkdown. */
  method RenderMarkdown(lines: seq<string>) returns (out: seq<Block>)
    ensures out == Render(lines)
  {
    hide BlockOf, Consumed, Render;
    out := [];
    var i := 0;
    ghost var rest := Render(lines);
    assert lines[0..] == lines;
    while i < |lines|
      invariant i <= |lines| + 1
      invariant rest == Render(if i <= |lines| then lines[i..] else [])
      invariant out + rest == Render(lines)
    {
      RenderStep(lines, i);
      var block, next := TakeBlock(lines, i);
      rest := Render(lines[i + Consumed(lines[i..])..]);
      assert out + ([block] + rest) == out + [block] + rest;
      assert next == |lines| + 1 ==> lines[i + Consumed(lines[i..])..] == [];
      out, i := out + [block], next;
    }
    assert i == |lines| ==> lines[i..] == [];
    RenderNothing();
  }

  lemma RenderNothing()
    ensures Render([]) == []
  {
  }

  // ----- a partition into maximal runs -----

  function Flatten(chunks: seq<seq<string>>): seq<string> {
    if chunks == [] then [] else chunks[0] + Flatten(chunks[1..])
  }

  /** The ranges consumed are the whole input, in order and without gaps, whatever the input; each
      block is made of its own range and of nothing else. */
  lemma {:induction false} ChunksPartition(lines: seq<string>)
    ensures Flatten(Chunks(lines)) == lines
    ensures |Chunks(lines)| == |Render(lines)|
    ensures forall k | 0 <= k < |Chunks(lines)| ::
      Chunks(lines)[k] != [] && Render(lines)[k] == BlockOf(Chunks(lines)[k])
    decreases |lines|
  {
    hide BlockOf, Consumed;
    if lines != [] {
      var n := Consumed(lines);
      ChunksPartition(lines[n..]);
      var chunks, blocks := Chunks(lines), Render(lines);
      assert chunks[1..] == Chunks(lines[n..]) && lines == lines[..n] + lines[n..];
      forall k | 0 <= k < |chunks| ensures chunks[k] != [] && blocks[k] == BlockOf(chunks[k]) {
        if k > 0 { assert chunks[k] == Chunks(lines[n..])[k - 1] && blocks[k] == Render(lines[n..])[k - 1]; }
      }
    }
  }

  lemma {:induction false} RunIsMaximal(lines: seq<string>, k: Kind)
    ensures var n := RunLength(lines, k);
            && (forall i | 0 <= i < n :: LineKind(lines[i]) == k)
            && (n < |lines| ==> LineKind(lines[n]) != k)
  {
    hide LineKind;
    if lines != [] && LineKind(lines[0]) == k {
      RunIsMaximal(lines[1..], k);
      assert forall i | 0 < i < RunLength(lines, k) :: lines[i] == lines[1..][i - 1];
    }
  }

  /** What the blocks of a rendering promise about their ranges: list, quote and table runs are
      maximal, with lines all of one kind before a line of another; a fenced block keeps its lines
      as they are, up to the first closing fence or the end; any other block is one line. */
  predicate IsMaximal(chunk: seq<string>, rest: seq<string>)
    requires chunk != []
  {
    var kind, last := LineKind(chunk[0]), |chunk| - 1;
    if Merges(kind) then
      (forall i | 0 <= i <= last :: LineKind(chunk[i]) == kind) && (rest != [] ==> LineKind(rest[0]) != kind)
    else if kind == FenceLine then
      && (forall i | 1 <= i < last :: !IsClosing(Trim(chunk[i])))
      && (rest != [] ==> last > 0 && IsClosing(Trim(chunk[last])) && BlockOf(chunk) == Code(chunk[1..last]))
    else last == 0
  }

  lemma FirstIsMaximal(lines: seq<string>)
    requires lines != []
    ensures IsMaximal(lines[..Consumed(lines)], lines[Consumed(lines)..])
  {
    hide LineKind, Trim, IsClosing, RunLength, CodeLength, ItemTexts;
    var n := Consumed(lines);
    RunIsMaximal(lines, LineKind(lines[0]));
    assert forall i | 1 <= i < n :: lines[i] == lines[1..][i - 1];
  }

  lemma {:induction false} RunsAreMaximal(lines: seq<string>, k: nat)
    requires k < |Chunks(lines)|
    ensures Chunks(lines)[k] != [] && IsMaximal(Chunks(lines)[k], Flatten(Chunks(lines)[k + 1..]))
    decreases |lines|
  {
    hide IsMaximal, Consumed;
    var n := Consumed(lines);
    var chunks := Chunks(lines);
    assert chunks[1..] == Chunks(lines[n..]);
    if k > 0 {
      RunsAreMaximal(lines[n..], k - 1);
      assert chunks[1..][k..] == chunks[k + 1..];
    } else {
      FirstIsMaximal(lines);
      ChunksPartition(lines[n..]);
    }
  }
}
