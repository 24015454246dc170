/** What a comment's round trip through Markdown keeps: the rendered blocks of a document are its
    flattened lines in maximal runs, and writing, rendering and loading again is a normaliser. */
module CommentRoundTrip {
  import opened Text
  import opened MarkdownBlocks
  import opened CommentDoc

  // ----- a document flattened, without any printing -----

  function ListEntries(list: Node): seq<Entry>
    requires list.ListNode?
    decreases list, 2
  {
    ItemsEntries(list.items, list.ordered, FirstNumber(list.start))
  }

  /** An item's own line comes first, then the lines of its nested lists; an item without text has
      no line and takes no number. */
  function ItemsEntries(items: seq<Item>, ordered: bool, n: nat): seq<Entry>
    decreases items, 1
  {
    if items == [] then []
    else
      OwnEntry(items[0], ordered, n) + ItemNestedEntries(items[0])
      + ItemsEntries(items[1..], ordered, NextNumber(items[0], n))
  }

  function OwnEntry(item: Item, ordered: bool, n: nat): seq<Entry> {
    if Joined(item) == "" then [] else [if ordered then Step(n, Joined(item)) else Dot(Joined(item))]
  }

  function ItemNestedEntries(item: Item): seq<Entry>
    decreases item, 0
  {
    NestedEntries(item.children)
  }

  function NestedEntries(children: seq<Node>): seq<Entry>
    decreases children, 0
  {
    if children == [] then [] else ChildEntries(children[0]) + NestedEntries(children[1..])
  }

  function ChildEntries(child: Node): seq<Entry>
    decreases child, 3
  {
    if child.ListNode? then ListEntries(child) else []
  }

  function ParaEntry(line: string): Entry {
    if Trim(line) == "" then Empty else Plain(Trim(line))
  }

  function ParaEntries(lines: seq<string>): seq<Entry> {
    if lines == [] then [] else [ParaEntry(lines[0])] + ParaEntries(lines[1..])
  }

  function NodeEntries(node: Node): seq<Entry> {
    if node.ListNode? then ListEntries(node) else ParaEntries(AtLeastOne(node.lines))
  }

  function Flattened(doc: seq<Node>): seq<Entry> {
    if doc == [] then [] else NodeEntries(doc[0]) + Flattened(doc[1..])
  }

  // ----- the entry behind a printed line -----

  lemma TrimOfTrimEnd(s: string)
    ensures Trim(TrimEnd(s)) == Trim(s)
  {
    hide TrimStart, TrimEnd, IsSpace;
    TrimEndSplits(s);
    var x, w := TrimEnd(s), s[|TrimEnd(s)|..];
    assert s == x + w;
    if x == "" {
      TrimStartSkips(s, "");
      assert s + "" == s;
      TrimmedIsFixed("");
    } else {
      TrimStartAppend(x, w);
      TrimEndSkips(TrimStart(x), w);
    }
  }

  /** The kind and the entry of a line depend only on what is left after trimming. */
  lemma EntryDependsOnTrim(a: string, b: string)
    requires Trim(a) == Trim(b) && IsSimple(a)
    ensures IsSimple(b) && EntryOf(a) == EntryOf(b)
  {
    hide Trim, IsFence, IsHeading, IsRule, IsQuote, IsTable, IsNumber, IsBullet;
    SimpleItemText(a);
    SimpleItemText(b);
  }

  lemma SimpleItemText(a: string)
    ensures IsSimple(a) && LineKind(a) in {NumberLine, BulletLine} ==>
              var t := Trim(a); ItemText(a) == if IsNumber(t) then t[DigitRun(t) + 2..] else t[2..]
  {
  }

  lemma BlankIff(line: string)
    ensures EntryOf(line) == Empty <==> AllSpace(line)
    ensures AllSpace(line) ==> IsSimple(line)
  {
    TrimIsEmptyIff(line);
    BlankKind(line);
  }

  lemma BlankKind(line: string)
    ensures LineKind(line) == BlankLine <==> Trim(line) == ""
  {
  }

  /** A list line is recognised by its first characters. */
  lemma ListKind(t: string)
    requires t != "" && Trimmed(t)
    ensures IsDigit(t[0]) && IsNumber(t) ==> LineKind(t) == NumberLine
    ensures "- " <= t ==> LineKind(t) == BulletLine
  {
    hide TrimStart, TrimEnd, IsHeading;
    TrimmedIsFixed(t);
    assert IsFence(t) ==> t[0] == "```"[0];
    assert HashRun(t) > 0 ==> t[0] == '#';
    assert IsRule(t) ==> t[0] == '-' && t[1] == '-';
    assert "- " <= t ==> t[0] == '-' && t[1] == ' ' && DigitRun(t) == 0;
    NotHeading(t);
  }

  lemma NotHeading(t: string)
    ensures HashRun(t) == 0 ==> !IsHeading(t)
  {
  }

  lemma BulletLineMeans(j: string)
    requires j != "" && Trimmed(j)
    ensures IsSimple("- " + j) && EntryOf("- " + j) == Dot(j)
  {
    hide LineKind;
    var t := "- " + j;
    assert t[|t| - 1] == j[|j| - 1] && t[0] == '-' && t[1] == ' ';
    TrimmedIsFixed(t);
    ListKind(t);
    assert DigitRun(t) == 0 && t[2..] == j;
  }

  lemma NumberLineMeans(n: nat, j: string)
    requires j != "" && Trimmed(j)
    ensures IsSimple(Digits(n) + ". " + j) && EntryOf(Digits(n) + ". " + j) == Step(n, j)
  {
    hide LineKind, Digits, TrimStart, TrimEnd;
    var d := Digits(n);
    var t := d + ". " + j;
    assert t[|t| - 1] == j[|j| - 1] && t[0] == d[0] && IsDigit(d[0]);
    TrimmedIsFixed(t);
    DigitRunStops(d, ". " + j);
    assert t == d + (". " + j);
    ListKind(t);
    assert t[|d| + 2..] == j && t[..|d|] == d;
    DigitsRead(n);
  }

  predicate Solid(pieces: seq<string>) {
    forall i | 0 <= i < |pieces| :: pieces[i] != "" && Trimmed(pieces[i])
  }

  lemma {:induction false} JoinIsSolid(pieces: seq<string>)
    requires pieces != [] && Solid(pieces)
    ensures Join(pieces, " ") != "" && Trimmed(Join(pieces, " "))
  {
    assert pieces[0] != "" && Trimmed(pieces[0]);
    if |pieces| > 1 {
      assert forall i | 0 <= i < |pieces[1..]| :: pieces[1..][i] == pieces[i + 1];
      JoinIsSolid(pieces[1..]);
    }
  }

  lemma {:induction false} TextsAreSolid(children: seq<Node>)
    ensures Solid(Texts(children))
  {
    if children != [] {
      TextsAreSolid(children[1..]);
      if !children[0].ListNode? { TrimIsTrimmed(Join(children[0].lines, " ")); }
    }
  }

  lemma JoinedIsTrimmed(item: Item)
    ensures Trimmed(Joined(item))
  {
    TextsAreSolid(item.children);
    if Texts(item.children) != [] { JoinIsSolid(Texts(item.children)); }
  }

  // ----- the lines of a document mean its flattening -----

  predicate LinesMean(lines: seq<string>, entries: seq<Entry>) {
    AllSimple(lines) && EntriesOf(lines) == entries
  }

  lemma LinesMeanAppend(a: seq<string>, b: seq<string>, x: seq<Entry>, y: seq<Entry>)
    requires LinesMean(a, x) && LinesMean(b, y)
    ensures LinesMean(a + b, x + y)
  {
    hide IsSimple, EntryOf;
  }

  lemma OwnLineMeans(item: Item, ordered: bool, n: nat)
    ensures LinesMean(OwnLine(item, ordered, n), OwnEntry(item, ordered, n))
  {
    hide IsSimple, EntryOf, Joined;
    if Joined(item) != "" {
      JoinedIsTrimmed(item);
      if ordered { NumberLineMeans(n, Joined(item)); } else { BulletLineMeans(Joined(item)); }
    }
  }

  lemma {:induction false} ListLinesMean(list: Node)
    requires list.ListNode?
    ensures LinesMean(ListLines(list), ListEntries(list))
    decreases list, 2
  {
    ItemsLinesMean(list.items, list.ordered, FirstNumber(list.start));
  }

  lemma {:induction false} ItemsLinesMean(items: seq<Item>, ordered: bool, n: nat)
    ensures LinesMean(ItemsLines(items, ordered, n), ItemsEntries(items, ordered, n))
    decreases items, 1
  {
    hide LinesMean, OwnLine, OwnEntry;
    if items == [] {
      NoLinesMean();
    } else {
      var next := NextNumber(items[0], n);
      OwnLineMeans(items[0], ordered, n);
      ItemNestedMean(items[0]);
      ItemsLinesMean(items[1..], ordered, next);
      var own, entry := OwnLine(items[0], ordered, n), OwnEntry(items[0], ordered, n);
      LinesMeanAppend(own, ItemNested(items[0]), entry, ItemNestedEntries(items[0]));
      LinesMeanAppend(own + ItemNested(items[0]), ItemsLines(items[1..], ordered, next),
                      entry + ItemNestedEntries(items[0]), ItemsEntries(items[1..], ordered, next));
    }
  }

  lemma NoLinesMean()
    ensures LinesMean([], [])
  {
  }

  lemma {:induction false} ItemNestedMean(item: Item)
    ensures LinesMean(ItemNested(item), ItemNestedEntries(item))
    decreases item, 0
  {
    NestedMean(item.children);
  }

  lemma {:induction false} NestedMean(children: seq<Node>)
    ensures LinesMean(Nested(children), NestedEntries(children))
    decreases children, 0
  {
    hide LinesMean;
    NoLinesMean();
    if children != [] {
      if children[0].ListNode? { ListLinesMean(children[0]); }
      NestedMean(children[1..]);
      LinesMeanAppend(ChildNested(children[0]), Nested(children[1..]), ChildEntries(children[0]),
        NestedEntries(children[1..]));
    }
  }

  /** The text of a top-level paragraph does not look like any other block. */
  predicate MarkerFree(doc: seq<Node>) {
    forall i | 0 <= i < |doc| && doc[i].ParaNode? ::
      forall k | 0 <= k < |doc[i].lines| :: LineKind(doc[i].lines[k]) in {BlankLine, TextLine}
  }

  lemma {:induction false} ParaLinesMean(lines: seq<string>)
    requires forall k | 0 <= k < |lines| :: LineKind(lines[k]) in {BlankLine, TextLine}
    ensures LinesMean(lines, ParaEntries(lines))
  {
    hide LinesMean, LineKind, Trim;
    NoLinesMean();
    if lines != [] {
      assert forall k | 0 <= k < |lines[1..]| :: lines[1..][k] == lines[k + 1];
      ParaLinesMean(lines[1..]);
      ParaLineMeans(lines[0]);
      LinesMeanAppend([lines[0]], lines[1..], [ParaEntry(lines[0])], ParaEntries(lines[1..]));
      assert lines == [lines[0]] + lines[1..];
    }
  }

  lemma ParaLineMeans(line: string)
    requires LineKind(line) in {BlankLine, TextLine}
    ensures LinesMean([line], [ParaEntry(line)])
  {
    hide LineKind, Trim;
    BlankKind(line);
  }

  lemma {:induction false} DocLinesMean(doc: seq<Node>)
    requires MarkerFree(doc)
    ensures LinesMean(DocLines(doc), Flattened(doc))
  {
    hide LinesMean, LineKind;
    NoLinesMean();
    if doc != [] {
      assert forall k | 0 <= k < |doc[1..]| :: doc[1..][k] == doc[k + 1];
      DocLinesMean(doc[1..]);
      NodeLinesMean(doc[0]);
      LinesMeanAppend(NodeLines(doc[0]), DocLines(doc[1..]), NodeEntries(doc[0]), Flattened(doc[1..]));
    }
  }

  lemma NodeLinesMean(node: Node)
    requires node.ParaNode? ==> forall k | 0 <= k < |node.lines| :: LineKind(node.lines[k]) in {BlankLine, TextLine}
    ensures LinesMean(NodeLines(node), NodeEntries(node))
  {
    hide LinesMean, LineKind;
    if node.ListNode? {
      ListLinesMean(node);
    } else {
      BlankKind("");
      ParaLinesMean(AtLeastOne(node.lines));
    }
  }

  // ----- blank ends -----

  function DropEmptyHead(entries: seq<Entry>): (r: seq<Entry>)
    requires entries != []
    ensures r != []
  {
    if |entries| > 1 && entries[0] == Empty then DropEmptyHead(entries[1..]) else entries
  }

  function DropEmptyTail(entries: seq<Entry>): (r: seq<Entry>)
    requires entries != []
    ensures r != []
  {
    var n := |entries| - 1;
    if n > 0 && entries[n] == Empty then DropEmptyTail(entries[..n]) else entries
  }

  /** The entries without blank ones at either end, but for a last one. */
  function Stripped(entries: seq<Entry>): (r: seq<Entry>)
    requires entries != []
    ensures r != []
  {
    DropEmptyTail(DropEmptyHead(entries))
  }

  lemma {:induction false} HeadMeans(lines: seq<string>)
    requires lines != [] && AllSimple(lines)
    ensures LinesMean(DropBlankHead(lines), DropEmptyHead(EntriesOf(lines)))
  {
    hide EntryOf, IsSimple, AllSpace;
    BlankIff(lines[0]);
    if |lines| > 1 && AllSpace(lines[0]) {
      assert EntriesOf(lines)[1..] == EntriesOf(lines[1..]);
      HeadMeans(lines[1..]);
    }
  }

  lemma {:induction false} TailMeans(lines: seq<string>)
    requires lines != [] && AllSimple(lines)
    ensures LinesMean(DropBlankTail(lines), DropEmptyTail(EntriesOf(lines)))
  {
    hide EntryOf, IsSimple, AllSpace, TrimEnd;
    var n := |lines| - 1;
    BlankIff(lines[n]);
    assert EntriesOf(lines)[..n] == EntriesOf(lines[..n]);
    if n > 0 && AllSpace(lines[n]) {
      TailMeans(lines[..n]);
    } else {
      TrimOfTrimEnd(lines[n]);
      EntryDependsOnTrim(lines[n], TrimEnd(lines[n]));
    }
  }

  lemma StripMeans(lines: seq<string>)
    requires lines != [] && AllSimple(lines)
    ensures LinesMean(StripLines(lines), Stripped(EntriesOf(lines)))
  {
    hide EntryOf, IsSimple;
    HeadMeans(lines);
    TailMeans(DropBlankHead(lines));
  }

  // ----- the rendered blocks of a document -----

  /** No text of the document holds a line break. */
  predicate NoBreaks(node: Node)
    decreases node
  {
    match node
    case ParaNode(lines) => OneLiners(lines)
    case ListNode(_, _, items) =>
      forall i | 0 <= i < |items| :: forall c | 0 <= c < |items[i].children| :: NoBreaks(items[i].children[c])
  }

  lemma {:induction false} JoinHasNoBreak(pieces: seq<string>)
    requires OneLiners(pieces)
    ensures OneLine(Join(pieces, " "))
  {
    if pieces != [] {
      assert OneLine(pieces[0]);
      assert forall i | 0 <= i < |pieces[1..]| :: pieces[1..][i] == pieces[i + 1];
      JoinHasNoBreak(pieces[1..]);
    }
  }

  lemma {:induction false} TextsHaveNoBreak(children: seq<Node>)
    requires forall c | 0 <= c < |children| :: NoBreaks(children[c])
    ensures OneLiners(Texts(children))
  {
    hide ChildText, NoBreaks;
    if children != [] {
      assert NoBreaks(children[0]);
      assert forall c | 0 <= c < |children[1..]| :: children[1..][c] == children[c + 1];
      TextsHaveNoBreak(children[1..]);
      ChildHasNoBreak(children[0]);
    }
  }

  lemma ChildHasNoBreak(child: Node)
    requires NoBreaks(child)
    ensures OneLiners(ChildText(child))
  {
    hide TrimStart, TrimEnd;
    if !child.ListNode? {
      var text := Join(child.lines, " ");
      JoinHasNoBreak(child.lines);
      TrimStartSplits(text);
      TrimEndSplits(TrimStart(text));
      assert OneLine(TrimStart(text));
    }
  }

  lemma OwnLineHasNoBreak(item: Item, ordered: bool, n: nat)
    requires forall c | 0 <= c < |item.children| :: NoBreaks(item.children[c])
    ensures OneLiners(OwnLine(item, ordered, n))
  {
    hide NoBreaks;
    TextsHaveNoBreak(item.children);
    JoinHasNoBreak(Texts(item.children));
    assert forall i | 0 <= i < |Digits(n)| :: IsDigit(Digits(n)[i]);
    assert OneLine(Marker(ordered, n));
  }

  lemma {:induction false} ListHasNoBreak(list: Node)
    requires list.ListNode? && NoBreaks(list)
    ensures OneLiners(ListLines(list))
    decreases list, 2
  {
    ItemsHaveNoBreak(list.items, list.ordered, FirstNumber(list.start));
  }

  lemma {:induction false} ItemsHaveNoBreak(items: seq<Item>, ordered: bool, n: nat)
    requires forall i | 0 <= i < |items| :: forall c | 0 <= c < |items[i].children| :: NoBreaks(items[i].children[c])
    ensures OneLiners(ItemsLines(items, ordered, n))
    decreases items, 1
  {
    hide OwnLine, NoBreaks;
    if items != [] {
      OwnLineHasNoBreak(items[0], ordered, n);
      ItemHasNoBreak(items[0]);
      assert forall i | 0 <= i < |items[1..]| :: items[1..][i] == items[i + 1];
      ItemsHaveNoBreak(items[1..], ordered, NextNumber(items[0], n));
    }
  }

  lemma {:induction false} ItemHasNoBreak(item: Item)
    requires forall c | 0 <= c < |item.children| :: NoBreaks(item.children[c])
    ensures OneLiners(ItemNested(item))
    decreases item, 0
  {
    hide NoBreaks;
    NestedHaveNoBreak(item.children);
  }

  lemma {:induction false} NestedHaveNoBreak(children: seq<Node>)
    requires forall c | 0 <= c < |children| :: NoBreaks(children[c])
    ensures OneLiners(Nested(children))
    decreases children, 0
  {
    hide NoBreaks;
    if children != [] {
      assert NoBreaks(children[0]);
      if children[0].ListNode? { ListHasNoBreak(children[0]); }
      assert forall c | 0 <= c < |children[1..]| :: children[1..][c] == children[c + 1];
      NestedHaveNoBreak(children[1..]);
    }
  }

  lemma {:induction false} DocHasNoBreak(doc: seq<Node>)
    requires forall i | 0 <= i < |doc| :: NoBreaks(doc[i])
    ensures OneLiners(DocLines(doc))
  {
    hide ListLines;
    if doc != [] {
      assert NoBreaks(doc[0]);
      if doc[0].ListNode? { ListHasNoBreak(doc[0]); }
      assert forall i | 0 <= i < |doc[1..]| :: doc[1..][i] == doc[i + 1];
      DocHasNoBreak(doc[1..]);
    }
  }

  function OrBlank(entries: seq<Entry>): (r: seq<Entry>)
    ensures r != []
  {
    if entries == [] then [Empty] else entries
  }

  /** The blocks rendered from a document's Markdown are its flattened lines, blank ends stripped,
      grouped into maximal runs of one kind: nesting is lost, nothing else. */
  lemma RenderedIsFlattened(doc: seq<Node>)
    requires MarkerFree(doc) && forall i | 0 <= i < |doc| :: NoBreaks(doc[i])
    ensures Groups(Stripped(OrBlank(Flattened(doc))), Render(SplitLines(Markdown(doc))))
  {
    hide EntryOf, IsSimple, Groups, Markdown, Render, StripLines, NoBreaks, MarkerFree;
    var lines := AtLeastOne(DocLines(doc));
    DocHasNoBreak(doc);
    RendererSeesLines(doc);
    DocLinesMean(doc);
    BlankIff("");
    assert AllSimple(lines) && EntriesOf(lines) == OrBlank(Flattened(doc));
    StripMeans(lines);
    RenderGroups(StripLines(lines));
  }
}
