/** Tesbo-Frontend/lib/commentMarkdown.ts, listToLines: which number and which text each list item
    gets, and where an ordered list starts once it is rendered. */
module CommentNumbers {
  import opened Text
  import opened MarkdownBlocks
  import opened CommentDoc
  import opened CommentRoundTrip

  // ----- the text of an item -----

  /** Two texts with a space between them, unless one is missing. */
  function Spaced(a: string, b: string): string {
    if a == "" then b else if b == "" then a else a + " " + b
  }

  lemma {:induction false} JoinSpaced(a: seq<string>, b: seq<string>)
    requires Solid(a) && Solid(b)
    ensures Join(a + b, " ") == Spaced(Join(a, " "), Join(b, " "))
    ensures Join(a, " ") == "" <==> a == []
  {
    if b != [] { JoinIsSolid(b); }
    if a == [] {
      assert a + b == b;
    } else {
      JoinIsSolid(a);
      if |a| == 1 {
        assert (a + b)[1..] == b && (a + b)[0] == a[0];
        if b == [] { assert a + b == a; }
      } else {
        assert Solid(a[1..]);
        JoinSpaced(a[1..], b);
        JoinIsSolid(a[1..]);
        assert (a + b)[1..] == a[1..] + b && (a + b)[0] == a[0];
        var x, y := a[0] + " ", Join(a[1..], " ");
        assert x + (y + " " + Join(b, " ")) == x + y + " " + Join(b, " ");
      }
    }
  }

  lemma {:induction false} TextsAppend(a: seq<Node>, b: seq<Node>)
    ensures Texts(a + b) == Texts(a) + Texts(b)
  {
    if a == [] {
      assert a + b == b;
    } else {
      assert (a + b)[0] == a[0] && (a + b)[1..] == a[1..] + b;
      TextsAppend(a[1..], b);
    }
  }

  /** One more paragraph in an item adds its lines, joined by spaces and trimmed, after a space; a
      blank one and a nested list add nothing. */
  lemma TextGrows(children: seq<Node>, child: Node)
    ensures Joined(Item([])) == ""
    ensures Joined(Item(children + [child]))
         == if child.ListNode? then Joined(Item(children))
            else Spaced(Joined(Item(children)), Trim(Join(child.lines, " ")))
  {
    hide Trim;
    TextsAppend(children, [child]);
    assert [child][0] == child && [child][1..] == [];
    TextsAreSolid(children);
    TextsAreSolid([child]);
    JoinSpaced(Texts(children), Texts([child]));
    if child.ParaNode? && Trim(Join(child.lines, " ")) != "" {
      assert Texts([child]) == [Trim(Join(child.lines, " "))];
    } else {
      assert Texts([child]) == [];
    }
  }

  /** One more nested list in an item adds its lines after those of the others; a paragraph adds none. */
  lemma {:induction false} NestedGrows(children: seq<Node>, child: Node)
    ensures ItemNested(Item([])) == []
    ensures ItemNested(Item(children + [child]))
         == ItemNested(Item(children)) + if child.ListNode? then ListLines(child) else []
  {
    hide ListLines;
    if children == [] {
      assert [] + [child] == [child] && [child][1..] == [];
      assert Nested([child]) == ChildNested(child) + [] && ChildNested(child) + [] == ChildNested(child);
    } else {
      var rest := children[1..];
      assert (children + [child])[0] == children[0] && (children + [child])[1..] == rest + [child];
      NestedGrows(rest, child);
      var own := if child.ListNode? then ListLines(child) else [];
      assert ChildNested(children[0]) + (Nested(rest) + own) == ChildNested(children[0]) + Nested(rest) + own;
    }
  }

  // ----- the number of an item -----

  /** How many of the items have text of their own. */
  function WithText(items: seq<Item>): nat {
    if items == [] then 0
    else WithText(items[..|items| - 1]) + if Joined(items[|items| - 1]) != "" then 1 else 0
  }

  lemma {:induction false} WithTextFirst(items: seq<Item>)
    requires items != []
    ensures WithText(items) == (if Joined(items[0]) != "" then 1 else 0) + WithText(items[1..])
  {
    var n := |items| - 1;
    if n > 0 {
      WithTextFirst(items[..n]);
      assert items[..n][1..] == items[1..][..n - 1];
    } else {
      assert items[..0] == [] && items[1..] == [];
    }
  }

  /** A list cut at item `k`: its lines, and its flattened entries, come first. */
  lemma {:induction false} ItemsCut(items: seq<Item>, ordered: bool, n: nat, k: nat)
    requires k <= |items|
    ensures ItemsLines(items, ordered, n)
         == ItemsLines(items[..k], ordered, n) + ItemsLines(items[k..], ordered, n + WithText(items[..k]))
    ensures ItemsEntries(items, ordered, n)
         == ItemsEntries(items[..k], ordered, n) + ItemsEntries(items[k..], ordered, n + WithText(items[..k]))
  {
    hide OwnLine, OwnEntry, ItemNested, ItemNestedEntries, Joined;
    if k == 0 {
      assert items[..0] == [] && items[0..] == items;
    } else {
      var rest, next := items[1..], NextNumber(items[0], n);
      ItemsCut(rest, ordered, next, k - 1);
      WithTextFirst(items[..k]);
      assert items[..k][1..] == rest[..k - 1] && rest[k - 1..] == items[k..] && items[..k][0] == items[0];
      assert next + WithText(rest[..k - 1]) == n + WithText(items[..k]);
    }
  }

  function HeadLine(item: Item, ordered: bool, n: nat): string {
    Marker(ordered, n) + Joined(item)
  }

  lemma HeadLineIs(item: Item, ordered: bool, n: nat)
    ensures HeadLine(item, ordered, n) == (if ordered then Digits(n) + ". " else "- ") + Joined(item)
  {
    hide Joined, Digits;
  }

  lemma HeadIsNumbered(items: seq<Item>, ordered: bool, n: nat) returns (rest: seq<string>)
    requires items != [] && Joined(items[0]) != ""
    ensures ItemsLines(items, ordered, n) == [HeadLine(items[0], ordered, n)] + rest && ItemNested(items[0]) <= rest
  {
    hide Joined, ItemNested, Marker;
    rest := ItemNested(items[0]) + ItemsLines(items[1..], ordered, NextNumber(items[0], n));
  }

  lemma HeadEntryIsNumbered(items: seq<Item>, ordered: bool, n: nat) returns (rest: seq<Entry>)
    requires items != [] && Joined(items[0]) != ""
    ensures var text := Joined(items[0]);
      ItemsEntries(items, ordered, n) == [if ordered then Step(n, text) else Dot(text)] + rest
  {
    hide Joined, ItemNestedEntries;
    rest := ItemNestedEntries(items[0]) + ItemsEntries(items[1..], ordered, NextNumber(items[0], n));
  }

  /** In an ordered list the first item with text carries the list's start (1 for a start of 0), and
      each further one the next number; in a bullet list every item carries a dash. The items before
      make the lines before; its own nested lists come next. */
  lemma ItemIsNumbered(list: Node, k: nat) returns (rest: seq<string>)
    requires list.ListNode? && k < |list.items| && Joined(list.items[k]) != ""
    ensures var first := if list.start == 0 then 1 else list.start;
            var marker := if list.ordered then Digits(first + WithText(list.items[..k])) + ". " else "- ";
      ListLines(list) == ListLines(list.(items := list.items[..k])) + [marker + Joined(list.items[k])] + rest
    ensures ItemNested(list.items[k]) <= rest
  {
    hide Joined, WithText, Digits, ItemsLines, ItemsEntries, HeadLine;
    var first := FirstNumber(list.start);
    var n := first + WithText(list.items[..k]);
    ItemsCut(list.items, list.ordered, first, k);
    rest := HeadIsNumbered(list.items[k..], list.ordered, n);
    var before, own := ItemsLines(list.items[..k], list.ordered, first), HeadLine(list.items[k], list.ordered, n);
    assert before + ([own] + rest) == before + [own] + rest;
    HeadLineIs(list.items[k], list.ordered, n);
  }

  /** The flattened document carries the same numbers and texts. */
  lemma EntryIsNumbered(list: Node, k: nat) returns (rest: seq<Entry>)
    requires list.ListNode? && k < |list.items| && Joined(list.items[k]) != ""
    ensures var first := if list.start == 0 then 1 else list.start;
            var text := Joined(list.items[k]);
      ListEntries(list) == ListEntries(list.(items := list.items[..k]))
        + [if list.ordered then Step(first + WithText(list.items[..k]), text) else Dot(text)] + rest
  {
    hide Joined, WithText, ItemsLines, ItemsEntries;
    var first := FirstNumber(list.start);
    var n := first + WithText(list.items[..k]);
    ItemsCut(list.items, list.ordered, first, k);
    rest := HeadEntryIsNumbered(list.items[k..], list.ordered, n);
    var text := Joined(list.items[k]);
    var before := ItemsEntries(list.items[..k], list.ordered, first);
    var own := if list.ordered then Step(n, text) else Dot(text);
    assert before + ([own] + rest) == before + [own] + rest;
  }

  // ----- rendered -----

  lemma {:induction false} TailKeepsFirst(entries: seq<Entry>)
    requires entries != []
    ensures DropEmptyTail(entries)[0] == entries[0]
  {
    var n := |entries| - 1;
    if n > 0 && entries[n] == Empty { TailKeepsFirst(entries[..n]); }
  }

  /** A comment that begins with an ordered list is displayed as an ordered list that starts where the
      document's does. */
  lemma RenderedListStarts(doc: seq<Node>)
    requires MarkerFree(doc) && forall i | 0 <= i < |doc| :: NoBreaks(doc[i])
    requires doc != [] && doc[0].ListNode? && doc[0].ordered && doc[0].items != [] && Joined(doc[0].items[0]) != ""
    ensures var blocks := Render(SplitLines(Markdown(doc)));
      && blocks != [] && blocks[0].Ordered? && blocks[0].start == (if doc[0].start == 0 then 1 else doc[0].start)
      && blocks[0].items != [] && blocks[0].items[0] == Joined(doc[0].items[0])
  {
    hide Joined, Markdown, Render, MarkerFree, NoBreaks, ListEntries;
    RenderedIsFlattened(doc);
    var rest := EntryIsNumbered(doc[0], 0);
    assert doc[0].items[..0] == [];
    NoItems(doc[0].(items := []));
    var entries := OrBlank(Flattened(doc));
    var first := Step(if doc[0].start == 0 then 1 else doc[0].start, Joined(doc[0].items[0]));
    assert ListEntries(doc[0])[0] == first;
    assert entries[0] == first;
    TailKeepsFirst(entries);
    assert Stripped(entries)[0] == first;
  }

  lemma NoItems(list: Node)
    requires list.ListNode? && list.items == []
    ensures ListEntries(list) == []
  {
  }
}
