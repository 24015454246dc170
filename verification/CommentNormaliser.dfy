/** Writing, rendering and loading a comment once more changes nothing after the first time: what
    the editor loads is what it last wrote (markdownToCommentHtml over commentDocToMarkdown). */
module CommentNormaliser {
  import opened Text
  import opened MarkdownBlocks
  import opened CommentDoc
  import opened CommentRoundTrip

  // ----- loading -----

  function LoadItems(items: seq<string>): seq<Item> {
    if items == [] then [] else [Item([ParaNode([items[0]])])] + LoadItems(items[1..])
  }

  /** The editor's node for a rendered block; a blank line is an empty paragraph. The other blocks
      are no part of a comment the editor wrote. */
  function LoadBlock(block: Block): Node {
    match block
    case Para(text) => ParaNode([text])
    case Bullets(items) => ListNode(false, 1, LoadItems(items))
    case Ordered(start, items) => ListNode(true, start, LoadItems(items))
    case _ => ParaNode([""])
  }

  function Load(blocks: seq<Block>): seq<Node> {
    if blocks == [] then [] else [LoadBlock(blocks[0])] + Load(blocks[1..])
  }

  /** Markdown to blocks, to the editor's document, and back to Markdown. */
  function Normalise(text: string): string {
    Markdown(Load(Render(SplitLines(text))))
  }

  // ----- what one pass does to the entries -----

  /** Texts are trimmed, and a run of numbered entries counts on from its first one (0 becomes 1);
      `carry` is the number of the entry before, or 0. */
  function Renumber(entries: seq<Entry>, carry: nat): seq<Entry> {
    if entries == [] then []
    else
      match entries[0]
      case Step(n, text) =>
        var m := if carry == 0 then FirstNumber(n) else carry + 1;
        [Step(m, Trim(text))] + Renumber(entries[1..], m)
      case Dot(text) => [Dot(Trim(text))] + Renumber(entries[1..], 0)
      case e => [e] + Renumber(entries[1..], 0)
  }

  /** List texts are not blank, and paragraph texts are trimmed and not blank. */
  predicate Sound(entries: seq<Entry>) {
    forall i | 0 <= i < |entries| ::
      match entries[i]
      case Empty => true
      case Plain(text) => text != "" && Trimmed(text) && LineKind(text) == TextLine
      case Dot(text) => Trim(text) != ""
      case Step(_, text) => Trim(text) != ""
  }

  lemma SimpleLineIsSound(line: string)
    requires IsSimple(line)
    ensures Sound([EntryOf(line)])
  {
    var t := Trim(line);
    TrimIsTrimmed(line);
    if LineKind(line) == TextLine {
      TrimmedIsFixed(t);
    } else if LineKind(line) == NumberLine {
      LastStays(t, DigitRun(t) + 2);
    } else if LineKind(line) == BulletLine {
      DigitRunOfBullet(t);
      LastStays(t, 2);
    }
  }

  lemma DigitRunOfBullet(t: string)
    requires IsBullet(t)
    ensures !IsNumber(t)
  {
  }

  /** The end of a trimmed line is not blank. */
  lemma LastStays(t: string, k: nat)
    requires t != "" && Trimmed(t) && 0 < k <= |t| && IsSpace(t[k - 1])
    ensures Trim(t[k..]) != ""
  {
    TrimIsEmptyIff(t[k..]);
    assert k < |t|;
    assert t[k..][|t[k..]| - 1] == t[|t| - 1];
  }

  lemma SimpleIsSound(lines: seq<string>)
    requires AllSimple(lines)
    ensures Sound(EntriesOf(lines))
  {
    hide EntryOf, IsSimple;
    forall i | 0 <= i < |lines| ensures Sound([EntryOf(lines[i])]) && EntriesOf(lines)[i] == [EntryOf(lines[i])][0] {
      assert IsSimple(lines[i]);
      SimpleLineIsSound(lines[i]);
    }
  }

  lemma OneParagraph(text: string)
    ensures Joined(Item([ParaNode([text])])) == Trim(text) && ItemNestedEntries(Item([ParaNode([text])])) == []
  {
    var child := ParaNode([text]);
    assert [child][1..] == [] && Texts([]) == [];
    assert Texts([child]) == ChildText(child);
    assert NestedEntries([child]) == ChildEntries(child) + NestedEntries([]);
  }

  lemma {:induction false} LoadedDots(items: seq<string>, n: nat, entries: seq<Entry>, more: seq<Entry>)
    requires |entries| == |items| && Sound(entries)
    requires forall i | 0 <= i < |items| :: entries[i] == Dot(items[i])
    ensures ItemsEntries(LoadItems(items), false, n) + Renumber(more, 0) == Renumber(entries + more, 0)
  {
    hide Joined, ItemNestedEntries, Trim;
    if items == [] {
      assert entries + more == more;
    } else {
      assert Trim(items[0]) != "" by { assert entries[0] == Dot(items[0]); }
      OneParagraph(items[0]);
      assert (entries + more)[0] == entries[0] && (entries + more)[1..] == entries[1..] + more;
      assert LoadItems(items)[1..] == LoadItems(items[1..]);
      LoadedDots(items[1..], n + 1, entries[1..], more);
    }
  }

  lemma {:induction false} LoadedSteps(items: seq<string>, n: nat, carry: nat, entries: seq<Entry>, more: seq<Entry>)
    requires |entries| == |items| && Sound(entries)
    requires forall i | 0 <= i < |items| :: entries[i].Step? && entries[i].text == items[i]
    requires n > 0 && (if carry == 0 then items != [] ==> n == FirstNumber(entries[0].n) else n == carry + 1)
    requires more != [] ==> !more[0].Step?
    ensures ItemsEntries(LoadItems(items), true, n) + Renumber(more, 0) == Renumber(entries + more, carry)
  {
    hide Joined, ItemNestedEntries, Trim;
    if items == [] {
      assert entries + more == more;
      assert Renumber(more, carry) == Renumber(more, 0);
    } else {
      assert Trim(items[0]) != "" by { assert entries[0].text == items[0]; }
      OneParagraph(items[0]);
      assert (entries + more)[0] == entries[0] && (entries + more)[1..] == entries[1..] + more;
      assert LoadItems(items)[1..] == LoadItems(items[1..]);
      LoadedSteps(items[1..], n + 1, n, entries[1..], more);
    }
  }

  lemma BlockRenumbers(block: Block, entries: seq<Entry>)
    requires Stands(block, entries) && Sound(entries)
    ensures NodeEntries(LoadBlock(block)) + Renumber(entries[BlockSize(block)..], 0) == Renumber(entries, 0)
  {
    hide Trim, LineKind;
    var n := BlockSize(block);
    var more := entries[n..];
    assert entries == entries[..n] + more;
    match block
    case Bullets(items) => LoadedDots(items, 1, entries[..n], more);
    case Ordered(start, items) => LoadedSteps(items, FirstNumber(start), 0, entries[..n], more);
    case Para(text) =>
      TrimmedIsFixed(text);
      assert AtLeastOne([text]) == [text] && [text][1..] == [];
      assert ParaEntries([text]) == [Plain(text)] + ParaEntries([]);
    case Blank =>
      TrimmedIsFixed("");
      assert AtLeastOne([""]) == [""] && [""][1..] == [];
      assert ParaEntries([""]) == [Empty] + ParaEntries([]);
  }

  lemma {:induction false} LoadRenumbers(entries: seq<Entry>, blocks: seq<Block>)
    requires Groups(entries, blocks) && Sound(entries)
    ensures Flattened(Load(blocks)) == Renumber(entries, 0)
    decreases |blocks|
  {
    hide Stands, Renumber, NodeEntries, LoadBlock, BlockSize;
    if blocks == [] {
      NoEntries();
    } else {
      var n := BlockSize(blocks[0]);
      StandsSize(blocks[0], entries);
      BlockRenumbers(blocks[0], entries);
      LoadRenumbers(entries[n..], blocks[1..]);
      assert Load(blocks)[1..] == Load(blocks[1..]);
    }
  }

  lemma StandsSize(block: Block, entries: seq<Entry>)
    requires Stands(block, entries)
    ensures 1 <= BlockSize(block) <= |entries|
  {
  }

  lemma NoEntries()
    ensures Renumber([], 0) == []
  {
  }

  // ----- printed entries -----

  function Printed(e: Entry): string {
    match e
    case Empty => ""
    case Plain(text) => text
    case Dot(text) => Marker(false, 0) + text
    case Step(n, text) => Marker(true, n) + text
  }

  /** An entry as one pass leaves it. */
  predicate IsSettled(e: Entry) {
    match e
    case Empty => true
    case Plain(text) => text != "" && Trimmed(text) && LineKind(text) == TextLine
    case Dot(text) => text != "" && Trimmed(text)
    case Step(_, text) => text != "" && Trimmed(text)
  }

  predicate AllSettled(entries: seq<Entry>) {
    forall i | 0 <= i < |entries| :: IsSettled(entries[i])
  }

  function PrintedAll(entries: seq<Entry>): (r: seq<string>)
    ensures |r| == |entries|
  {
    seq(|entries|, i requires 0 <= i < |entries| => Printed(entries[i]))
  }

  lemma PrintedMeans(e: Entry)
    requires IsSettled(e)
    ensures IsSimple(Printed(e)) && EntryOf(Printed(e)) == e
    ensures Trimmed(Printed(e)) && (Printed(e) == "" <==> e == Empty)
  {
    hide LineKind, TrimStart, TrimEnd, Digits, ItemText, ListStart;
    match e
    case Empty =>
      TrimmedIsFixed("");
      BlankKind("");
    case Plain(text) => TrimmedIsFixed(text);
    case Dot(text) =>
      BulletLineMeans(text);
      assert Printed(e) == "- " + text && Printed(e)[|Printed(e)| - 1] == text[|text| - 1];
    case Step(n, text) =>
      NumberLineMeans(n, text);
      assert Printed(e)[0] == Digits(n)[0] && Printed(e)[|Printed(e)| - 1] == text[|text| - 1];
  }

  lemma PrintedAllMean(entries: seq<Entry>)
    requires AllSettled(entries)
    ensures AllSimple(PrintedAll(entries)) && EntriesOf(PrintedAll(entries)) == entries
  {
    hide IsSimple, EntryOf, IsSettled, Printed;
    forall i | 0 <= i < |entries|
      ensures IsSimple(PrintedAll(entries)[i]) && EntryOf(PrintedAll(entries)[i]) == entries[i]
    {
      assert IsSettled(entries[i]);
      PrintedMeans(entries[i]);
    }
  }

  lemma {:induction false} RenumberSettles(entries: seq<Entry>, carry: nat)
    requires Sound(entries)
    ensures AllSettled(Renumber(entries, carry)) && |Renumber(entries, carry)| == |entries|
  {
    hide Trim, LineKind;
    if entries != [] {
      var m := if entries[0].Step? then if carry == 0 then FirstNumber(entries[0].n) else carry + 1 else 0;
      RenumberSettles(entries[1..], m);
      if entries[0].Dot? || entries[0].Step? { TrimIsTrimmed(entries[0].text); }
      assert IsSettled(Renumber(entries, carry)[0]);
    }
  }

  // ----- a second pass finds nothing to do -----

  lemma {:induction false} RenumberTwice(entries: seq<Entry>, carry: nat)
    requires Sound(entries)
    ensures Renumber(Renumber(entries, carry), carry) == Renumber(entries, carry)
  {
    hide Trim, LineKind;
    if entries != [] {
      var m := if entries[0].Step? then if carry == 0 then FirstNumber(entries[0].n) else carry + 1 else 0;
      var once := Renumber(entries, carry);
      assert once[1..] == Renumber(entries[1..], m);
      RenumberTwice(entries[1..], m);
      if entries[0].Dot? || entries[0].Step? {
        TrimIsTrimmed(entries[0].text);
        TrimmedIsFixed(Trim(entries[0].text));
      }
    }
  }

  lemma {:induction false} RenumberPrefix(entries: seq<Entry>, carry: nat, n: nat)
    requires n <= |entries|
    ensures |Renumber(entries, carry)| == |entries| && Renumber(entries[..n], carry) == Renumber(entries, carry)[..n]
  {
    hide Trim;
    if entries != [] {
      var m := if entries[0].Step? then if carry == 0 then FirstNumber(entries[0].n) else carry + 1 else 0;
      RenumberPrefix(entries[1..], m, if n == 0 then 0 else n - 1);
      if n > 0 { assert entries[..n][1..] == entries[1..][..n - 1]; }
    }
  }

  predicate Fixed(entries: seq<Entry>) {
    AllSettled(entries) && Renumber(entries, 0) == entries
  }

  lemma {:induction false} HeadStaysFixed(entries: seq<Entry>)
    requires entries != [] && Fixed(entries)
    ensures Fixed(DropEmptyHead(entries))
    ensures var r := DropEmptyHead(entries); |r| == 1 || r[0] != Empty
  {
    hide IsSettled, Trim;
    if |entries| > 1 && entries[0] == Empty {
      assert Renumber(entries, 0)[1..] == Renumber(entries[1..], 0);
      HeadStaysFixed(entries[1..]);
    }
  }

  lemma {:induction false} TailStaysFixed(entries: seq<Entry>)
    requires entries != [] && Fixed(entries) && (|entries| == 1 || entries[0] != Empty)
    ensures var r := DropEmptyTail(entries);
            Fixed(r) && (|r| == 1 || (r[0] != Empty && r[|r| - 1] != Empty))
  {
    hide IsSettled, Trim;
    var n := |entries| - 1;
    if n > 0 && entries[n] == Empty {
      RenumberPrefix(entries, 0, n);
      TailStaysFixed(entries[..n]);
    }
  }

  lemma StrippedIsFixed(entries: seq<Entry>)
    requires entries != [] && Fixed(entries)
    ensures Fixed(Stripped(entries)) && Stripped(Stripped(entries)) == Stripped(entries)
  {
    hide Fixed;
    HeadStaysFixed(entries);
    TailStaysFixed(DropEmptyHead(entries));
  }

  // ----- the lines of a loaded document -----

  lemma NothingPrinted()
    ensures PrintedAll([]) == []
  {
  }

  lemma PrintedAppend(a: seq<Entry>, b: seq<Entry>)
    ensures PrintedAll(a + b) == PrintedAll(a) + PrintedAll(b)
  {
    hide Printed;
  }

  lemma OwnIsPrinted(item: Item, ordered: bool, n: nat)
    ensures OwnLine(item, ordered, n) == PrintedAll(OwnEntry(item, ordered, n))
  {
    hide Joined, Digits;
  }

  lemma {:induction false} ListIsPrinted(items: seq<Item>, ordered: bool, n: nat)
    requires forall i | 0 <= i < |items| :: ItemNested(items[i]) == [] && ItemNestedEntries(items[i]) == []
    ensures ItemsLines(items, ordered, n) == PrintedAll(ItemsEntries(items, ordered, n))
  {
    hide ItemNested, ItemNestedEntries, OwnLine, OwnEntry, NextNumber, PrintedAll;
    if items == [] {
      NothingPrinted();
    } else {
      var next := NextNumber(items[0], n);
      OwnIsPrinted(items[0], ordered, n);
      ListIsPrinted(items[1..], ordered, next);
      PrintedAppend(OwnEntry(items[0], ordered, n), ItemsEntries(items[1..], ordered, next));
      var own, entry := OwnLine(items[0], ordered, n), OwnEntry(items[0], ordered, n);
      assert own + [] == own && entry + [] == entry;
    }
  }

  lemma {:induction false} LoadedItemsAreFlat(items: seq<string>)
    ensures forall i | 0 <= i < |LoadItems(items)| ::
              ItemNested(LoadItems(items)[i]) == [] && ItemNestedEntries(LoadItems(items)[i]) == []
  {
    hide ItemNested, ItemNestedEntries;
    if items != [] {
      LoadedItemsAreFlat(items[1..]);
      FlatItem(items[0]);
      assert forall i | 0 < i < |LoadItems(items)| :: LoadItems(items)[i] == LoadItems(items[1..])[i - 1];
    }
  }

  lemma FlatItem(text: string)
    ensures ItemNested(Item([ParaNode([text])])) == [] && ItemNestedEntries(Item([ParaNode([text])])) == []
  {
    var child := ParaNode([text]);
    assert [child][1..] == [];
    assert Nested([child]) == ChildNested(child) + Nested([]);
    assert NestedEntries([child]) == ChildEntries(child) + NestedEntries([]);
  }

  lemma NodeIsPrinted(block: Block, entries: seq<Entry>)
    requires Stands(block, entries) && Sound(entries)
    ensures NodeLines(LoadBlock(block)) == PrintedAll(NodeEntries(LoadBlock(block)))
  {
    hide Trim, LineKind, ItemsLines, ItemsEntries, Digits;
    match block
    case Bullets(items) =>
      LoadedItemsAreFlat(items);
      ListIsPrinted(LoadItems(items), false, 1);
    case Ordered(start, items) =>
      LoadedItemsAreFlat(items);
      ListIsPrinted(LoadItems(items), true, FirstNumber(start));
    case Para(text) =>
      TrimmedIsFixed(text);
      assert [text][1..] == [] && ParaEntries([text]) == [Plain(text)] + ParaEntries([]);
    case Blank =>
      TrimmedIsFixed("");
      assert [""][1..] == [] && ParaEntries([""]) == [Empty] + ParaEntries([]);
  }

  lemma {:induction false} LoadedIsPrinted(entries: seq<Entry>, blocks: seq<Block>)
    requires Groups(entries, blocks) && Sound(entries)
    ensures DocLines(Load(blocks)) == PrintedAll(Flattened(Load(blocks)))
    decreases |blocks|
  {
    hide Stands, NodeEntries, NodeLines, LoadBlock, BlockSize, PrintedAll, Sound;
    if blocks == [] {
      NothingPrinted();
    } else {
      var n := BlockSize(blocks[0]);
      StandsSize(blocks[0], entries);
      SoundTail(entries, n);
      NodeIsPrinted(blocks[0], entries);
      LoadedIsPrinted(entries[n..], blocks[1..]);
      assert Load(blocks)[0] == LoadBlock(blocks[0]) && Load(blocks)[1..] == Load(blocks[1..]);
      PrintedAppend(NodeEntries(LoadBlock(blocks[0])), Flattened(Load(blocks[1..])));
    }
  }

  lemma SoundTail(entries: seq<Entry>, n: nat)
    requires Sound(entries) && n <= |entries|
    ensures Sound(entries[n..])
  {
    hide Trim, LineKind;
    assert forall i | 0 <= i < |entries[n..]| :: entries[n..][i] == entries[n + i];
  }

  // ----- no line breaks appear -----

  predicate EntryOneLine(e: Entry) {
    e.Empty? || OneLine(e.text)
  }

  predicate EntriesOneLine(entries: seq<Entry>) {
    forall i | 0 <= i < |entries| :: EntryOneLine(entries[i])
  }

  lemma TrimHasNoBreak(s: string)
    requires OneLine(s)
    ensures OneLine(Trim(s))
  {
    hide TrimStart, TrimEnd;
    TrimStartSplits(s);
    TrimEndSplits(TrimStart(s));
    assert OneLine(TrimStart(s));
  }

  lemma EntriesHaveNoBreak(lines: seq<string>)
    requires OneLiners(lines)
    ensures EntriesOneLine(EntriesOf(lines))
  {
    hide Trim, LineKind, OneLine;
    forall i | 0 <= i < |lines| ensures EntryOneLine(EntriesOf(lines)[i]) {
      assert OneLine(lines[i]);
      EntryHasNoBreak(lines[i]);
    }
  }

  lemma EntryHasNoBreak(line: string)
    requires OneLine(line)
    ensures EntryOneLine(EntryOf(line))
  {
    hide Trim, LineKind, IsNumber, IsBullet, IsQuote;
    TrimHasNoBreak(line);
  }

  lemma {:induction false} RenumberHasNoBreak(entries: seq<Entry>, carry: nat)
    requires EntriesOneLine(entries)
    ensures EntriesOneLine(Renumber(entries, carry))
  {
    hide Trim, OneLine;
    if entries != [] {
      var m := if entries[0].Step? then if carry == 0 then FirstNumber(entries[0].n) else carry + 1 else 0;
      assert EntryOneLine(entries[0]);
      RenumberHasNoBreak(entries[1..], m);
      if entries[0].Dot? || entries[0].Step? { TrimHasNoBreak(entries[0].text); }
    }
  }

  lemma PrintedHasNoBreak(e: Entry)
    requires EntryOneLine(e)
    ensures OneLine(Printed(e))
  {
    if e.Step? {
      assert forall i | 0 <= i < |Digits(e.n)| :: IsDigit(Digits(e.n)[i]);
      assert OneLine(Digits(e.n));
    }
  }

  // ----- one pass, and a second -----

  lemma {:induction false} HeadIsPrinted(entries: seq<Entry>)
    requires entries != [] && AllSettled(entries)
    ensures DropBlankHead(PrintedAll(entries)) == PrintedAll(DropEmptyHead(entries))
    ensures AllSettled(DropEmptyHead(entries))
  {
    hide IsSettled, Printed, AllSpace;
    assert IsSettled(entries[0]);
    PrintedMeans(entries[0]);
    BlankIff(Printed(entries[0]));
    if |entries| > 1 && entries[0] == Empty {
      assert PrintedAll(entries)[1..] == PrintedAll(entries[1..]);
      HeadIsPrinted(entries[1..]);
    }
  }

  lemma {:induction false} TailIsPrinted(entries: seq<Entry>)
    requires entries != [] && AllSettled(entries)
    ensures DropBlankTail(PrintedAll(entries)) == PrintedAll(DropEmptyTail(entries))
  {
    hide IsSettled, Printed, AllSpace, TrimEnd;
    var n := |entries| - 1;
    assert IsSettled(entries[n]);
    PrintedMeans(entries[n]);
    BlankIff(Printed(entries[n]));
    assert PrintedAll(entries)[..n] == PrintedAll(entries[..n]);
    if n > 0 && entries[n] == Empty {
      TailIsPrinted(entries[..n]);
    } else {
      TrimmedIsFixed(Printed(entries[n]));
    }
  }

  lemma StrippedIsPrinted(entries: seq<Entry>)
    requires entries != [] && AllSettled(entries)
    ensures StripLines(PrintedAll(entries)) == PrintedAll(Stripped(entries))
  {
    hide IsSettled, PrintedAll;
    HeadIsPrinted(entries);
    TailIsPrinted(DropEmptyHead(entries));
  }

  /** The entries of a text after one pass. */
  function Once(text: string): seq<Entry> {
    var entries := EntriesOf(SplitLines(text));
    var renumbered := Renumber(entries, 0);
    if renumbered == [] then [] else Stripped(renumbered)
  }

  lemma RenumberedLines(text: string)
    requires AllSimple(SplitLines(text))
    ensures var renumbered := Renumber(EntriesOf(SplitLines(text)), 0);
            && DocLines(Load(Render(SplitLines(text)))) == PrintedAll(renumbered)
            && renumbered != [] && Fixed(renumbered) && EntriesOneLine(renumbered)
  {
    hide IsSimple, EntryOf, Groups, Sound, IsSettled, Trim;
    var lines := SplitLines(text);
    var entries := EntriesOf(lines);
    SimpleIsSound(lines);
    RenderGroups(lines);
    LoadRenumbers(entries, Render(lines));
    LoadedIsPrinted(entries, Render(lines));
    RenumberSettles(entries, 0);
    RenumberTwice(entries, 0);
    SplitIsOneLiners(text);
    EntriesHaveNoBreak(lines);
    RenumberHasNoBreak(entries, 0);
  }

  /** One pass leaves the settled entries, one printed line each. */
  lemma OnePass(text: string)
    requires AllSimple(SplitLines(text))
    ensures Once(text) != [] && Fixed(Once(text)) && Stripped(Once(text)) == Once(text)
    ensures SplitLines(Normalise(text)) == PrintedAll(Once(text))
    ensures Normalise(text) == Join(PrintedAll(Once(text)), "\n")
  {
    hide IsSimple, EntryOf, PrintedAll, EntryOneLine, Render, Load, DocLines, Renumber, StripLines, Markdown;
    RenumberedLines(text);
    var renumbered := Renumber(EntriesOf(SplitLines(text)), 0);
    var doc := Load(Render(SplitLines(text)));
    StrippedIsFixed(renumbered);
    StrippedIsPrinted(renumbered);
    PrintedAreOneLiners(renumbered);
    RendererSeesLines(doc);
  }

  lemma PrintedAreOneLiners(entries: seq<Entry>)
    requires EntriesOneLine(entries)
    ensures OneLiners(PrintedAll(entries)) && |PrintedAll(entries)| == |entries|
  {
    hide Printed, OneLine;
    forall i | 0 <= i < |entries| ensures OneLine(PrintedAll(entries)[i]) {
      assert EntryOneLine(entries[i]);
      PrintedHasNoBreak(entries[i]);
    }
  }

  /** On comments made of paragraphs, blank lines, bullet lists and numbered lists, writing what
      was loaded is a normaliser: the second time changes nothing, and what it writes is such a
      comment again. */
  lemma NormaliseIsIdempotent(text: string)
    requires AllSimple(SplitLines(text))
    ensures AllSimple(SplitLines(Normalise(text)))
    ensures Normalise(Normalise(text)) == Normalise(text)
  {
    hide IsSimple, EntryOf, PrintedAll, Normalise, Stripped, IsSettled;
    OnePass(text);
    var once := Once(text);
    PrintedAllMean(once);
    OnePass(Normalise(text));
    assert Once(Normalise(text)) == Stripped(Renumber(once, 0));
  }
}
