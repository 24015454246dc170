/** Tesbo-Frontend/lib/commentMarkdown.ts against lib/markdown.ts: a comment document is written as
    Markdown lines, rendered to blocks, and loaded back into the editor. */
module CommentDoc {
  import opened Text
  import opened MarkdownBlocks

  /** An editor document: a paragraph is its lines between hard breaks, marks already written. */
  datatype Node = ParaNode(lines: seq<string>) | ListNode(ordered: bool, start: nat, items: seq<Item>)
  datatype Item = Item(children: seq<Node>)

  // ----- numbers -----

  lemma {:induction false} DigitsRead(n: nat)
    ensures Natural(Digits(n)) == n
  {
    if n >= 10 {
      DigitsRead(n / 10);
      assert Digits(n)[..|Digits(n)| - 1] == Digits(n / 10);
    }
  }

  lemma {:induction false} DigitRunStops(d: string, rest: string)
    requires (forall i | 0 <= i < |d| :: IsDigit(d[i])) && (rest == "" || !IsDigit(rest[0]))
    ensures DigitRun(d + rest) == |d|
  {
    if d == "" {
      assert d + rest == rest;
    } else {
      assert (d + rest)[1..] == d[1..] + rest;
      DigitRunStops(d[1..], rest);
    }
  }

  // ----- the writer -----

  function Marker(ordered: bool, n: nat): string {
    if ordered then Digits(n) + ". " else "- "
  }

  /** `Number(start ?? 1) || 1`. */
  function FirstNumber(start: nat): nat {
    if start == 0 then 1 else start
  }

  /** The texts of an item's own paragraphs, empty ones dropped. */
  function Texts(children: seq<Node>): seq<string> {
    if children == [] then [] else ChildText(children[0]) + Texts(children[1..])
  }

  function ChildText(child: Node): seq<string> {
    if child.ListNode? || Trim(Join(child.lines, " ")) == "" then [] else [Trim(Join(child.lines, " "))]
  }

  function Joined(item: Item): string {
    Join(Texts(item.children), " ")
  }

  /** listToLines. */
  function ListLines(list: Node): seq<string>
    requires list.ListNode?
    decreases list, 2
  {
    ItemsLines(list.items, list.ordered, FirstNumber(list.start))
  }

  function ItemsLines(items: seq<Item>, ordered: bool, n: nat): seq<string>
    decreases items, 1
  {
    if items == [] then []
    else
      OwnLine(items[0], ordered, n) + ItemNested(items[0])
      + ItemsLines(items[1..], ordered, NextNumber(items[0], n))
  }

  /** The item's own line, unless it is empty; only then the number moves on. */
  function OwnLine(item: Item, ordered: bool, n: nat): seq<string> {
    if Joined(item) == "" then [] else [Marker(ordered, n) + Joined(item)]
  }

  function NextNumber(item: Item, n: nat): nat {
    if Joined(item) == "" then n else n + 1
  }

  function ItemNested(item: Item): seq<string>
    decreases item, 0
  {
    Nested(item.children)
  }

  function Nested(children: seq<Node>): seq<string>
    decreases children, 0
  {
    if children == [] then [] else ChildNested(children[0]) + Nested(children[1..])
  }

  function ChildNested(child: Node): seq<string>
    decreases child, 3
  {
    if child.ListNode? then ListLines(child) else []
  }

  /** What commentDocToMarkdown pushes: a paragraph is one string with its hard breaks inside. */
  function DocParts(doc: seq<Node>): seq<string> {
    if doc == [] then [] else DocPart(doc[0]) + DocParts(doc[1..])
  }

  function DocPart(node: Node): seq<string> {
    if node.ListNode? then ListLines(node) else [Join(node.lines, "\n")]
  }

  /** A line break within the leading white space. */
  predicate HasLeadingBreak(s: string) {
    s != "" && IsSpace(s[0]) && (s[0] == '\n' || HasLeadingBreak(s[1..]))
  }

  function AfterBreak(s: string): (r: string)
    requires HasLeadingBreak(s)
    ensures |r| < |s|
  {
    if s[0] == '\n' then s[1..] else AfterBreak(s[1..])
  }

  /** `s.replace(/^\s*\n/, "")`: everything up to the last break in the leading white space. */
  function DropLeading(s: string): string
    decreases |s|
  {
    if HasLeadingBreak(s) then DropLeading(AfterBreak(s)) else s
  }

  function StripText(s: string): string {
    TrimEnd(DropLeading(s))
  }

  function Markdown(doc: seq<Node>): string {
    StripText(Join(DocParts(doc), "\n"))
  }

  lemma TextsStep(children: seq<Node>, c: nat, text: seq<string>)
    requires c < |children|
    ensures text + Texts(children[c..]) == text + ChildText(children[c]) + Texts(children[c + 1..])
  {
    assert children[c..] == [children[c]] + children[c + 1..];
    assert text + (ChildText(children[c]) + Texts(children[c + 1..]))
        == text + ChildText(children[c]) + Texts(children[c + 1..]);
  }

  lemma NestedStep(children: seq<Node>, c: nat, nested: seq<string>)
    requires c < |children|
    ensures nested + Nested(children[c..]) == nested + ChildNested(children[c]) + Nested(children[c + 1..])
  {
    assert children[c..] == [children[c]] + children[c + 1..];
    assert nested + (ChildNested(children[c]) + Nested(children[c + 1..]))
        == nested + ChildNested(children[c]) + Nested(children[c + 1..]);
  }

  lemma NothingLeft(children: seq<Node>, items: seq<Item>, ordered: bool, n: nat)
    ensures children[0..] == children && items[0..] == items
    ensures Texts(children[|children|..]) == [] && Nested(children[|children|..]) == []
    ensures ItemsLines(items[|items|..], ordered, n) == [] && DocParts(children[|children|..]) == []
  {
  }

  method ItemToLines(item: Item, ordered: bool, n: nat) returns (lines: seq<string>, next: nat)
    ensures lines == OwnLine(item, ordered, n) + ItemNested(item) && next == NextNumber(item, n)
    decreases item, 0
  {
    hide Texts, Nested, ListLines, Trim, Join;
    var text: seq<string>, nested: seq<string> := [], [];
    NothingLeft(item.children, [], ordered, n);
    for c := 0 to |item.children|
      invariant text + Texts(item.children[c..]) == Texts(item.children)
      invariant nested + Nested(item.children[c..]) == Nested(item.children)
    {
      var child := item.children[c];
      TextsStep(item.children, c, text);
      NestedStep(item.children, c, nested);
      if child.ListNode? {
        var more := ListToLines(child);
        assert text + [] == text;
        nested := nested + more;
      } else {
        assert nested + [] == nested && text + [] == text;
        var t := Trim(Join(child.lines, " "));
        if t != "" { text := text + [t]; }
      }
    }
    assert text + [] == text && nested + [] == nested;
    var joined := Join(text, " ");
    lines := (if joined == "" then [] else [Marker(ordered, n) + joined]) + nested;
    next := if joined == "" then n else n + 1;
  }

  lemma ItemsStep(items: seq<Item>, i: nat, ordered: bool, n: nat, lines: seq<string>)
    requires i < |items|
    ensures lines + ItemsLines(items[i..], ordered, n)
         == lines + (OwnLine(items[i], ordered, n) + ItemNested(items[i]))
            + ItemsLines(items[i + 1..], ordered, NextNumber(items[i], n))
  {
    hide OwnLine, ItemNested, NextNumber;
    assert items[i..][0] == items[i] && items[i..][1..] == items[i + 1..];
  }

  method ListToLines(list: Node) returns (lines: seq<string>)
    requires list.ListNode?
    ensures lines == ListLines(list)
    decreases list, 1
  {
    hide ItemsLines, OwnLine, ItemNested, NextNumber;
    var n := FirstNumber(list.start);
    lines := [];
    NothingLeft([], list.items, list.ordered, n);
    for i := 0 to |list.items|
      invariant lines + ItemsLines(list.items[i..], list.ordered, n) == ListLines(list)
    {
      ItemsStep(list.items, i, list.ordered, n, lines);
      var more;
      more, n := ItemToLines(list.items[i], list.ordered, n);
      lines := lines + more;
    }
    NothingLeft([], list.items, list.ordered, n);
    assert lines + [] == lines;
  }

  lemma PartsStep(doc: seq<Node>, b: nat, lines: seq<string>)
    requires b < |doc|
    ensures lines + DocParts(doc[b..]) == lines + DocPart(doc[b]) + DocParts(doc[b + 1..])
  {
    hide DocPart;
    assert doc[b..] == [doc[b]] + doc[b + 1..];
    assert lines + (DocPart(doc[b]) + DocParts(doc[b + 1..])) == lines + DocPart(doc[b]) + DocParts(doc[b + 1..]);
  }

  method CommentDocToMarkdown(doc: seq<Node>) returns (markdown: string)
    ensures markdown == Markdown(doc)
  {
    hide DocParts, StripText, Join, ListLines;
    var lines: seq<string> := [];
    NothingLeft(doc, [], false, 0);
    for b := 0 to |doc|
      invariant lines + DocParts(doc[b..]) == DocParts(doc)
    {
      PartsStep(doc, b, lines);
      var more;
      if doc[b].ListNode? { more := ListToLines(doc[b]); } else { more := [Join(doc[b].lines, "\n")]; }
      lines := lines + more;
    }
    assert lines + [] == lines;
    markdown := StripText(Join(lines, "\n"));
  }

  // ----- lines and text -----

  /** `text.split("\n")`. */
  function SplitLines(text: string): (r: seq<string>)
    ensures r != []
  {
    if text == "" then [""]
    else if text[0] == '\n' then [""] + SplitLines(text[1..])
    else var rest := SplitLines(text[1..]); [[text[0]] + rest[0]] + rest[1..]
  }

  predicate OneLine(s: string) {
    '\n' !in s
  }

  predicate OneLiners(lines: seq<string>) {
    forall i | 0 <= i < |lines| :: OneLine(lines[i])
  }

  lemma {:induction false} SplitAppend(line: string, rest: string)
    requires OneLine(line)
    ensures SplitLines(line + "\n" + rest) == [line] + SplitLines(rest)
    ensures SplitLines(line) == [line]
  {
    var s := line + "\n" + rest;
    if line == "" {
      assert s[1..] == rest;
    } else {
      assert s[0] == line[0] && s[1..] == line[1..] + "\n" + rest;
      SplitAppend(line[1..], rest);
      assert [line[0]] + line[1..] == line;
    }
  }

  lemma {:induction false} SplitJoin(lines: seq<string>)
    requires lines != [] && OneLiners(lines)
    ensures SplitLines(Join(lines, "\n")) == lines
  {
    assert OneLine(lines[0]);
    if |lines| == 1 {
      SplitAppend(lines[0], "");
      assert lines == [lines[0]];
    } else {
      SplitJoin(lines[1..]);
      SplitAppend(lines[0], Join(lines[1..], "\n"));
      assert lines == [lines[0]] + lines[1..];
    }
  }

  lemma {:induction false} SplitIsOneLiners(text: string)
    ensures OneLiners(SplitLines(text))
  {
    if text != "" {
      SplitIsOneLiners(text[1..]);
      assert OneLine(SplitLines(text[1..])[0]);
    }
  }

  /** The line-level form of StripText: blank lines at both ends go, but for a last one, and the
      last line loses its trailing white space. */
  function DropBlankHead(lines: seq<string>): (r: seq<string>)
    requires lines != []
    ensures r != []
  {
    if |lines| > 1 && AllSpace(lines[0]) then DropBlankHead(lines[1..]) else lines
  }

  function DropBlankTail(lines: seq<string>): (r: seq<string>)
    requires lines != []
    ensures r != []
  {
    var n := |lines| - 1;
    if n > 0 && AllSpace(lines[n]) then DropBlankTail(lines[..n]) else lines[..n] + [TrimEnd(lines[n])]
  }

  function StripLines(lines: seq<string>): (r: seq<string>)
    requires lines != []
    ensures r != []
  {
    DropBlankTail(DropBlankHead(lines))
  }

  lemma {:induction false} LeadingBreakIff(line: string, rest: string)
    requires OneLine(line)
    ensures HasLeadingBreak(line + "\n" + rest) <==> AllSpace(line)
    ensures HasLeadingBreak(line) <==> false
    ensures AllSpace(line) ==> AfterBreak(line + "\n" + rest) == rest
  {
    var s := line + "\n" + rest;
    if line == "" {
      assert s[1..] == rest;
    } else {
      assert s[0] == line[0] && s[1..] == line[1..] + "\n" + rest;
      LeadingBreakIff(line[1..], rest);
      assert AllSpace(line) <==> IsSpace(line[0]) && AllSpace(line[1..]);
    }
  }

  lemma {:induction false} DropLeadingLines(lines: seq<string>)
    requires lines != [] && OneLiners(lines)
    ensures DropLeading(Join(lines, "\n")) == Join(DropBlankHead(lines), "\n")
    ensures OneLiners(DropBlankHead(lines))
  {
    assert OneLine(lines[0]);
    if |lines| > 1 {
      var rest := Join(lines[1..], "\n");
      LeadingBreakIff(lines[0], rest);
      if AllSpace(lines[0]) { DropLeadingLines(lines[1..]); }
    } else {
      LeadingBreakIff(lines[0], "");
    }
  }

  lemma {:induction false} JoinLast(lines: seq<string>)
    requires |lines| > 1
    ensures Join(lines, "\n") == Join(lines[..|lines| - 1], "\n") + "\n" + lines[|lines| - 1]
  {
    var init := lines[..|lines| - 1];
    if |lines| > 2 {
      JoinLast(lines[1..]);
      assert lines[1..][..|lines| - 2] == init[1..];
    }
  }

  lemma {:induction false} DropTrailingLines(lines: seq<string>)
    requires lines != [] && OneLiners(lines)
    ensures TrimEnd(Join(lines, "\n")) == Join(DropBlankTail(lines), "\n")
    ensures OneLiners(DropBlankTail(lines))
  {
    var n := |lines| - 1;
    var last := lines[n];
    TrimEndSplits(last);
    assert OneLine(last) && OneLine(TrimEnd(last));
    if n > 0 {
      var init := lines[..n];
      JoinLast(lines);
      if AllSpace(last) {
        var w := "\n" + last;
        assert AllSpace(w);
        assert Join(lines, "\n") == Join(init, "\n") + w;
        TrimEndSkips(Join(init, "\n"), w);
        DropTrailingLines(init);
      } else {
        TrimEndKeeps(Join(init, "\n") + "\n", last);
        JoinLast(init + [TrimEnd(last)]);
        assert (init + [TrimEnd(last)])[..n] == init;
      }
    }
  }

  lemma StripTextIsLines(lines: seq<string>)
    requires lines != [] && OneLiners(lines)
    ensures StripText(Join(lines, "\n")) == Join(StripLines(lines), "\n") && OneLiners(StripLines(lines))
  {
    DropLeadingLines(lines);
    DropTrailingLines(DropBlankHead(lines));
  }

  // ----- the lines of a document -----

  function AtLeastOne(lines: seq<string>): (r: seq<string>)
    ensures r != []
  {
    if lines == [] then [""] else lines
  }

  /** The lines the renderer will see, before blank ends are stripped. */
  function DocLines(doc: seq<Node>): seq<string> {
    if doc == [] then [] else NodeLines(doc[0]) + DocLines(doc[1..])
  }

  function NodeLines(node: Node): seq<string> {
    if node.ListNode? then ListLines(node) else AtLeastOne(node.lines)
  }

  lemma {:induction false} JoinAppend(a: seq<string>, b: seq<string>)
    ensures a != [] && b != [] ==> Join(a + b, "\n") == Join(a, "\n") + "\n" + Join(b, "\n")
    ensures a == [] ==> Join(a + b, "\n") == Join(b, "\n")
    ensures b == [] ==> Join(a + b, "\n") == Join(a, "\n")
  {
    if a == [] {
      assert a + b == b;
    } else if b == [] {
      assert a + b == a;
    } else {
      assert (a + b)[1..] == a[1..] + b && (a + b)[0] == a[0];
      if |a| == 1 {
        assert a[1..] + b == b;
      } else {
        JoinAppend(a[1..], b);
        var x, y, z := a[0], Join(a[1..], "\n"), Join(b, "\n");
        assert x + "\n" + (y + "\n" + z) == x + "\n" + y + "\n" + z;
      }
    }
  }

  lemma {:induction false} PartsAreLines(doc: seq<Node>)
    ensures Join(DocParts(doc), "\n") == Join(DocLines(doc), "\n")
    ensures DocParts(doc) == [] <==> DocLines(doc) == []
  {
    if doc != [] {
      PartsAreLines(doc[1..]);
      assert Join(DocPart(doc[0]), "\n") == Join(NodeLines(doc[0]), "\n");
      JoinAppend(DocPart(doc[0]), DocParts(doc[1..]));
      JoinAppend(NodeLines(doc[0]), DocLines(doc[1..]));
    }
  }

  /** The renderer sees the document's lines with blank ends stripped. */
  lemma RendererSeesLines(doc: seq<Node>)
    requires OneLiners(DocLines(doc))
    ensures var lines := AtLeastOne(DocLines(doc));
            Markdown(doc) == Join(StripLines(lines), "\n") && SplitLines(Markdown(doc)) == StripLines(lines)
  {
    var lines := AtLeastOne(DocLines(doc));
    PartsAreLines(doc);
    assert Join(lines, "\n") == Join(DocLines(doc), "\n");
    StripTextIsLines(lines);
    SplitJoin(StripLines(lines));
  }

  // ----- what the rendered lines mean -----

  /** A line of a comment that uses only paragraphs, blank lines and lists. */
  datatype Entry = Empty | Plain(text: string) | Dot(text: string) | Step(n: nat, text: string)

  predicate IsSimple(line: string) {
    LineKind(line) in {NumberLine, BulletLine, BlankLine, TextLine}
  }

  predicate AllSimple(lines: seq<string>) {
    forall i | 0 <= i < |lines| :: IsSimple(lines[i])
  }

  function EntryOf(line: string): Entry {
    match LineKind(line)
    case BlankLine => Empty
    case BulletLine => Dot(ItemText(line))
    case NumberLine => Step(ListStart(line), ItemText(line))
    case _ => Plain(Trim(line))
  }

  function EntriesOf(lines: seq<string>): (r: seq<Entry>)
    ensures |r| == |lines|
  {
    seq(|lines|, i requires 0 <= i < |lines| => EntryOf(lines[i]))
  }

  function BlockSize(block: Block): nat {
    match block
    case Bullets(items) => |items|
    case Ordered(_, items) => |items|
    case _ => 1
  }

  /** The block stands for the first entries: a list for a maximal run of one kind, numbered from
      its first entry, anything else for one entry. */
  ghost predicate Stands(block: Block, entries: seq<Entry>) {
    var n := BlockSize(block);
    && 1 <= n <= |entries|
    && match block
       case Blank => entries[0] == Empty
       case Para(text) => entries[0] == Plain(text)
       case Bullets(items) =>
         && (forall i | 0 <= i < n :: entries[i] == Dot(items[i]))
         && (n < |entries| ==> !entries[n].Dot?)
       case Ordered(start, items) =>
         && (forall i | 0 <= i < n :: entries[i].Step? && entries[i].text == items[i])
         && entries[0].n == start && (n < |entries| ==> !entries[n].Step?)
       case _ => false
  }

  /** The blocks are the entries in order, grouped into maximal runs of one kind. */
  ghost predicate Groups(entries: seq<Entry>, blocks: seq<Block>)
    decreases |blocks|
  {
    if blocks == [] then entries == []
    else Stands(blocks[0], entries) && Groups(entries[BlockSize(blocks[0])..], blocks[1..])
  }

  lemma SingleStands(lines: seq<string>)
    requires lines != [] && LineKind(lines[0]) in {BlankLine, TextLine}
    ensures Consumed(lines) == 1 && BlockSize(BlockOf(lines[..1])) == 1
    ensures Stands(BlockOf(lines[..1]), EntriesOf(lines))
  {
    hide LineKind, ItemText, ListStart, Trim, RunLength;
    assert EntriesOf(lines)[0] == EntryOf(lines[0]);
  }

  lemma ListStands(lines: seq<string>)
    requires lines != [] && LineKind(lines[0]) in {NumberLine, BulletLine}
    ensures BlockSize(BlockOf(lines[..Consumed(lines)])) == Consumed(lines)
    ensures Stands(BlockOf(lines[..Consumed(lines)]), EntriesOf(lines))
  {
    hide LineKind, ItemText, ListStart, Trim, RunLength;
    var n := Consumed(lines);
    RunIsMaximal(lines, LineKind(lines[0]));
    var chunk, entries := lines[..n], EntriesOf(lines);
    assert forall i | 0 <= i < n :: chunk[i] == lines[i] && ItemTexts(chunk)[i] == ItemText(lines[i]);
    assert forall i | 0 <= i < n :: entries[i] == EntryOf(lines[i]);
    assert n < |lines| ==> entries[n] == EntryOf(lines[n]);
  }

  lemma {:induction false} RenderGroups(lines: seq<string>)
    requires AllSimple(lines)
    ensures Groups(EntriesOf(lines), Render(lines))
    decreases |lines|
  {
    hide Stands, BlockOf, Consumed, LineKind, EntryOf;
    if lines != [] {
      var n := Consumed(lines);
      RenderGroups(lines[n..]);
      assert IsSimple(lines[0]);
      if LineKind(lines[0]) in {BlankLine, TextLine} { SingleStands(lines); } else { ListStands(lines); }
      assert EntriesOf(lines)[n..] == EntriesOf(lines[n..]) && Render(lines)[1..] == Render(lines[n..]);
    }
  }
}
