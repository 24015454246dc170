/** load/teardown.js: the loop that empties a project of tagged test cases by reading page one
    of a search again and again while deleting from it. */
module Teardown {

  type Id = nat

  /** `alsoFound` says that the search finds the tag in the description or the type. */
  datatype Row = Row(title: string, alsoFound: bool)

  type Rows = map<Id, Row>

  const GUARD := 200

  /** `title.indexOf(tag) !== -1`. */
  predicate Contains(title: string, tag: string) {
    tag <= title || (title != "" && Contains(title[1..], tag))
  }

  predicate IsTagged(row: Row, tag: string) {
    row.title != "" && Contains(row.title, tag)
  }

  /** The tag stands at position `k` of a title. */
  predicate TagAt(title: string, tag: string, k: nat) {
    k + |tag| <= |title| && title[k..k + |tag|] == tag
  }

  /** A row whose own title carries the tag, wherever else the search may have found it. */
  ghost predicate CarriesTag(row: Row, tag: string) {
    row.title != "" && exists k: nat :: TagAt(row.title, tag, k)
  }

  lemma {:induction false} ContainsIff(title: string, tag: string)
    ensures Contains(title, tag) <==> exists k: nat :: TagAt(title, tag, k)
  {
    assert tag <= title <==> TagAt(title, tag, 0) by { assert tag <= title ==> title[0..|tag|] == tag; }
    if title != "" {
      var rest := title[1..];
      ContainsIff(rest, tag);
      if Contains(rest, tag) {
        var k: nat :| TagAt(rest, tag, k);
        assert title[k + 1..k + 1 + |tag|] == rest[k..k + |tag|];
        assert TagAt(title, tag, k + 1);
      }
      if exists k: nat :: TagAt(title, tag, k) {
        var k: nat :| TagAt(title, tag, k);
        if k > 0 {
          assert title[k..k + |tag|] == rest[k - 1..k - 1 + |tag|];
          assert TagAt(rest, tag, k - 1);
        }
      }
    }
  }

  /** What the loop takes for tagged is a title that carries the tag. */
  lemma TaggedIff(row: Row, tag: string)
    ensures IsTagged(row, tag) <==> CarriesTag(row, tag)
  {
    ContainsIff(row.title, tag);
  }

  lemma AllTaggedIff(rows: Rows, tag: string)
    ensures forall id | id in rows :: IsTagged(rows[id], tag) <==> CarriesTag(rows[id], tag)
  {
    hide IsTagged, CarriesTag;
    forall id | id in rows ensures IsTagged(rows[id], tag) <==> CarriesTag(rows[id], tag) {
      TaggedIff(rows[id], tag);
    }
  }

  function Tagged(rows: Rows, tag: string): set<Id> {
    set id | id in rows && IsTagged(rows[id], tag)
  }

  /** Found by the search, but not to be deleted. */
  function Strays(rows: Rows, tag: string): set<Id> {
    set id | id in rows && !IsTagged(rows[id], tag) && rows[id].alsoFound
  }

  function Found(rows: Rows, tag: string): set<Id> {
    Tagged(rows, tag) + Strays(rows, tag)
  }

  /** The search finds the rows that carry the tag and the strays: rows that it finds by their
      description or type alone. */
  lemma FoundIff(rows: Rows, tag: string, id: Id)
    ensures id in Tagged(rows, tag) <==> id in rows && CarriesTag(rows[id], tag)
    ensures id in Strays(rows, tag) <==> id in rows && rows[id].alsoFound && !CarriesTag(rows[id], tag)
  {
    hide IsTagged, CarriesTag;
    if id in rows { TaggedIff(rows[id], tag); }
  }

  function Min(a: nat, b: nat): nat { if a < b then a else b }

  /** The server may order its matches as it likes; page one is any full page of them. */
  predicate IsPageOne(rows: Rows, tag: string, size: nat, page: set<Id>) {
    page <= Found(rows, tag) && |page| == Min(size, |Found(rows, tag)|)
  }

  class Project {
    var rows: Rows

    constructor (rows: Rows)
      ensures this.rows == rows
    {
      this.rows := rows;
    }

    /** GET testcases?limit=size&offset=0&search=tag, with the order left open. */
    method ReadPageOne(tag: string, size: nat) returns (page: seq<Id>)
      ensures NoRepeats(page) && IsPageOne(rows, tag, size, Ids(page)) && Ids(page) <= rows.Keys
    {
      hide Found, Tagged, Strays;
      page := [];
      var found := Found(rows, tag);
      FoundCount(rows, tag);
      var left := found;
      while left != {} && |page| < size
        invariant NoRepeats(page)
        invariant Ids(page) !! left && Ids(page) + left == found
        invariant |page| <= size
        decreases |left|
      {
        var id :| id in left;
        IdsAppend(page, id);
        assert id !in Ids(page);
        left := left - {id};
        page := page + [id];
      }
      CountIds(page);
      assert |found| == |Ids(page)| + |left|;
    }

    /** `page.json.filter(…).map(t => t.id)`. */
    method TaggedOf(page: seq<Id>, tag: string) returns (ids: seq<Id>)
      requires NoRepeats(page) && Ids(page) <= rows.Keys
      ensures NoRepeats(ids) && Ids(ids) == Deletes(rows, tag, Ids(page))
    {
      ids := [];
      for i := 0 to |page|
        invariant NoRepeats(ids) && Ids(ids) == Deletes(rows, tag, Ids(page[..i]))
      {
        assert page[i] in Ids(page) && page[i] !in page[..i];
        assert page[..i + 1] == page[..i] + [page[i]];
        IdsAppend(page[..i], page[i]);
        IdsAppend(ids, page[i]);
        if IsTagged(rows[page[i]], tag) {
          assert page[i] !in Ids(ids);
          ids := ids + [page[i]];
        }
      }
      assert page[..|page|] == page;
    }

    /** POST bulk-delete. */
    method BulkDelete(ids: seq<Id>)
      modifies this
      ensures rows == old(rows) - Ids(ids)
    {
      rows := rows - set id | id in ids;
    }

    /** One turn of the loop: `more` is false where the source breaks. */
    method Turn(tag: string, size: nat, confirm: bool, readOk: bool, deleteOk: bool)
      returns (more: bool, deleted: nat, ghost page: set<Id>)
      modifies this
      ensures deleted == if more then |Deletes(old(rows), tag, page)| else 0
      ensures rows == if more then old(rows) - Deletes(old(rows), tag, page) else old(rows)
      ensures more ==> confirm && IsPageOne(old(rows), tag, size, page) && Deletes(old(rows), tag, page) != {}
      ensures !more && confirm && readOk && deleteOk ==>
                IsPageOne(rows, tag, size, page) && Deletes(rows, tag, page) == {}
      ensures forall id | id in old(rows) && id !in rows :: id in page && CarriesTag(old(rows)[id], tag)
      ensures more ==> forall id | id in page && id in old(rows) && CarriesTag(old(rows)[id], tag) :: id !in rows
    {
      hide IsTagged, CarriesTag;
      AllTaggedIff(rows, tag);
      more, deleted, page := false, 0, {};
      if !readOk { return; }
      var read := ReadPageOne(tag, size);
      page := Ids(read);
      if read == [] { return; }
      var ids := TaggedOf(read, tag);
      if ids == [] { return; }
      assert ids[0] in Ids(ids);
      if !confirm { return; }
      if !deleteOk { return; }
      CountIds(ids);
      BulkDelete(ids);
      more, deleted := true, |ids|;
    }

    /** The drain loop. `readOk(n)` and `deleteOk(n)` say whether the requests of turn `n`
        succeed; `confirm` is CONFIRM_DELETE. */
    method Drain(tag: string, size: nat, confirm: bool, readOk: nat -> bool, deleteOk: nat -> bool)
      returns (removed: nat, ghost pages: seq<set<Id>>)
      modifies this
      ensures OnlyTaggedGone(old(rows), rows, tag)
      ensures removed == |old(rows).Keys - rows.Keys|
      ensures !confirm ==> rows == old(rows)
      ensures confirm && (forall n: nat | n < GUARD :: readOk(n) && deleteOk(n)) ==>
                Run(old(rows), tag, size, GUARD, pages) && rows == End(old(rows), tag, pages)
    {
      hide Deletes, IsPageOne, OnlyTaggedGone, Steady, End, Run;
      removed, pages := 0, [];
      ghost var was := rows;
      NothingGone(was, tag, size);
      for guard := 0 to GUARD
        invariant OnlyTaggedGone(was, rows, tag)
        invariant removed == |was.Keys - rows.Keys|
        invariant !confirm ==> rows == was
        invariant |pages| == guard && Steady(was, tag, size, pages) && rows == End(was, tag, pages)
      {
        ghost var before := rows;
        var more, deleted;
        ghost var page;
        more, deleted, page := Turn(tag, size, confirm, readOk(guard), deleteOk(guard));
        ReadOneMore(was, pages, before, tag, size, page);
        pages := pages + [page];
        if !more { return; }
        GoneGrows(was, before, tag, page);
        removed := removed + deleted;
      }
      SteadyRun(was, tag, size, pages);
    }
  }

  /** The rows that have gone carried the tag in their titles, and the others are as they were. */
  ghost predicate OnlyTaggedGone(was: Rows, now: Rows, tag: string) {
    && now.Keys <= was.Keys
    && (forall id | id in now :: now[id] == was[id])
    && (forall id | id in was && id !in now :: CarriesTag(was[id], tag))
  }

  lemma NothingGone(was: Rows, tag: string, size: nat)
    ensures OnlyTaggedGone(was, was, tag) && |was.Keys - was.Keys| == 0
    ensures Steady(was, tag, size, []) && End(was, tag, []) == was
  {
  }

  lemma GoneGrows(was: Rows, before: Rows, tag: string, page: set<Id>)
    requires OnlyTaggedGone(was, before, tag)
    ensures var now := before - Deletes(before, tag, page);
            && OnlyTaggedGone(was, now, tag)
            && |was.Keys - now.Keys| == |was.Keys - before.Keys| + |Deletes(before, tag, page)|
  {
    hide IsTagged, CarriesTag;
    AllTaggedIff(before, tag);
    CountGone(was, before, Deletes(before, tag, page));
  }

  lemma CountGone(was: Rows, before: Rows, gone: set<Id>)
    requires gone <= before.Keys <= was.Keys
    ensures |was.Keys - (before - gone).Keys| == |was.Keys - before.Keys| + |gone|
  {
    assert was.Keys - (before - gone).Keys == (was.Keys - before.Keys) + gone;
  }

  ghost function Ids(page: seq<Id>): set<Id> {
    set id | id in page
  }

  ghost predicate NoRepeats(page: seq<Id>) {
    forall i, j | 0 <= i < j < |page| :: page[i] != page[j]
  }

  lemma IdsAppend(page: seq<Id>, id: Id)
    ensures Ids(page + [id]) == Ids(page) + {id}
  {
  }

  lemma {:induction false} CountIds(page: seq<Id>)
    requires NoRepeats(page)
    ensures |Ids(page)| == |page|
  {
    if page != [] {
      var init, last := page[..|page| - 1], page[|page| - 1];
      assert page == init + [last];
      IdsAppend(init, last);
      CountIds(init);
      assert last !in Ids(init);
    }
  }

  /** The ids of one page that are sent to bulk-delete. */
  function Deletes(rows: Rows, tag: string, page: set<Id>): set<Id> {
    set id | id in page && id in rows && IsTagged(rows[id], tag)
  }

  /** The rows left after reading `pages` and deleting what each offers. */
  ghost function End(rows: Rows, tag: string, pages: seq<set<Id>>): Rows {
    if pages == [] then rows
    else
      var before := End(rows, tag, pages[..|pages| - 1]);
      before - Deletes(before, tag, pages[|pages| - 1])
  }

  /** Each page is some page one of the rows at the time, and has something to delete. */
  ghost predicate Steady(rows: Rows, tag: string, size: nat, pages: seq<set<Id>>) {
    pages == [] ||
    var init, page := pages[..|pages| - 1], pages[|pages| - 1];
    && Steady(rows, tag, size, init)
    && IsPageOne(End(rows, tag, init), tag, size, page)
    && Deletes(End(rows, tag, init), tag, page) != {}
  }

  /** The pages the loop may read in `turns` turns with every request succeeding: all of them
      have something to delete, or the first one that has not is the last one read. */
  ghost predicate Run(rows: Rows, tag: string, size: nat, turns: nat, pages: seq<set<Id>>) {
    if |pages| == turns && Steady(rows, tag, size, pages) then true
    else
      && 0 < |pages| <= turns
      && var init, page := pages[..|pages| - 1], pages[|pages| - 1];
         && Steady(rows, tag, size, init)
         && IsPageOne(End(rows, tag, init), tag, size, page)
         && Deletes(End(rows, tag, init), tag, page) == {}
  }

  lemma ReadOneMore(was: Rows, pages: seq<set<Id>>, rows: Rows, tag: string, size: nat, page: set<Id>)
    requires Steady(was, tag, size, pages) && rows == End(was, tag, pages)
    ensures var gone := Deletes(rows, tag, page);
            && End(was, tag, pages + [page]) == rows - gone
            && (gone == {} ==> rows - gone == rows)
            && (IsPageOne(rows, tag, size, page) && |pages| < GUARD ==>
                if gone == {} then Run(was, tag, size, GUARD, pages + [page])
                  else Steady(was, tag, size, pages + [page]))
  {
    hide Deletes, IsPageOne;
    var all := pages + [page];
    assert all[..|all| - 1] == pages && all[|all| - 1] == page;
    DeletesNothing(rows, tag, page);
  }

  lemma SteadyRun(was: Rows, tag: string, size: nat, pages: seq<set<Id>>)
    requires Steady(was, tag, size, pages) && |pages| == GUARD
    ensures Run(was, tag, size, GUARD, pages)
  {
  }

  lemma DeletesNothing(rows: Rows, tag: string, page: set<Id>)
    ensures Deletes(rows, tag, page) == {} ==> rows - Deletes(rows, tag, page) == rows
  {
  }

  // ----- the bound -----

  /** Deleting tagged rows leaves the strays alone. */
  lemma AfterDelete(rows: Rows, tag: string, gone: set<Id>)
    requires gone <= Tagged(rows, tag)
    ensures Tagged(rows - gone, tag) == Tagged(rows, tag) - gone
    ensures Strays(rows - gone, tag) == Strays(rows, tag)
    ensures |Tagged(rows - gone, tag)| == |Tagged(rows, tag)| - |gone|
  {
  }

  /** A page holds at most all the strays, so it deletes the rest of a page or everything. */
  lemma PageDeletesEnough(rows: Rows, tag: string, size: nat, page: set<Id>)
    requires IsPageOne(rows, tag, size, page) && |Strays(rows, tag)| < size
    ensures |Deletes(rows, tag, page)| >= Min(|Tagged(rows, tag)|, size - |Strays(rows, tag)|)
    ensures Deletes(rows, tag, page) == {} <==> Tagged(rows, tag) == {}
  {
    var tagged, strays := Tagged(rows, tag), Strays(rows, tag);
    var gone := Deletes(rows, tag, page);
    assert gone == page * tagged;
    assert page == gone + page * strays;
    assert |page| == |gone| + |page * strays|;
    Subset(page * strays, strays);
    assert |Found(rows, tag)| == |tagged| + |strays|;
    assert tagged != {} ==> |tagged| > 0;
  }

  lemma Subset(a: set<Id>, b: set<Id>)
    requires a <= b
    ensures |a| <= |b|
  {
    assert b == a + (b - a);
  }

  /** Steady pages leave the strays alone and each removes its share of the tagged rows, or all. */
  lemma {:induction false} SteadyShare(rows: Rows, tag: string, size: nat, pages: seq<set<Id>>)
    requires Steady(rows, tag, size, pages) && |Strays(rows, tag)| < size
    ensures var end := End(rows, tag, pages);
            && Strays(end, tag) == Strays(rows, tag)
            && (Tagged(end, tag) == {} ||
                |Tagged(end, tag)| <= |Tagged(rows, tag)| - |pages| * (size - |Strays(rows, tag)|))
  {
    if pages != [] {
      var n := |pages| - 1;
      var before, page := End(rows, tag, pages[..n]), pages[n];
      SteadyShare(rows, tag, size, pages[..n]);
      TurnShare(before, tag, size, page);
      OneMore(n, size - |Strays(rows, tag)|);
    }
  }

  lemma TurnShare(rows: Rows, tag: string, size: nat, page: set<Id>)
    requires IsPageOne(rows, tag, size, page) && |Strays(rows, tag)| < size
    ensures var next := rows - Deletes(rows, tag, page);
            && Strays(next, tag) == Strays(rows, tag)
            && (Tagged(next, tag) == {} ||
                |Tagged(next, tag)| <= |Tagged(rows, tag)| - (size - |Strays(rows, tag)|))
  {
    PageDeletesEnough(rows, tag, size, page);
    AfterDelete(rows, tag, Deletes(rows, tag, page));
    if |Tagged(rows, tag)| <= |Deletes(rows, tag, page)| {
      assert |Tagged(rows - Deletes(rows, tag, page), tag)| == 0;
    }
  }

  lemma OneMore(n: nat, step: nat)
    ensures (n + 1) * step == n * step + step
  {
  }

  /** Within the bound, every run ends with no tagged row left, in whatever order the server
      answers. */
  lemma DrainsWithinBound(rows: Rows, tag: string, size: nat, turns: nat, pages: seq<set<Id>>)
    requires Run(rows, tag, size, turns, pages)
    requires |Strays(rows, tag)| < size && |Tagged(rows, tag)| <= turns * (size - |Strays(rows, tag)|)
    ensures Tagged(End(rows, tag, pages), tag) == {}
  {
    if |pages| == turns && Steady(rows, tag, size, pages) {
      SteadyShare(rows, tag, size, pages);
    } else {
      var n := |pages| - 1;
      var before, page := End(rows, tag, pages[..n]), pages[n];
      SteadyShare(rows, tag, size, pages[..n]);
      PageDeletesEnough(before, tag, size, page);
      DeletesNothing(before, tag, page);
    }
  }

  /** A subset of the wanted size. */
  lemma {:induction false} PickSubset(s: set<Id>, n: nat) returns (t: set<Id>)
    requires n <= |s|
    ensures t <= s && |t| == n
    decreases n
  {
    t := {};
    if n > 0 {
      var x :| x in s;
      assert |s - {x}| == |s| - 1;
      t := PickSubset(s - {x}, n - 1);
      t := t + {x};
    }
  }

  /** A server that lists the strays first gives up as few tagged rows as it can, for as long as
      there are more of them. */
  lemma {:induction false} StraysListedFirst(rows: Rows, tag: string, size: nat, turns: nat)
    returns (pages: seq<set<Id>>)
    requires |Strays(rows, tag)| < size && |Tagged(rows, tag)| > turns * (size - |Strays(rows, tag)|)
    ensures |pages| == turns && Steady(rows, tag, size, pages)
    ensures var end := End(rows, tag, pages);
            && Strays(end, tag) == Strays(rows, tag)
            && |Tagged(end, tag)| == |Tagged(rows, tag)| - turns * (size - |Strays(rows, tag)|)
    decreases turns
  {
    pages := [];
    if turns > 0 {
      var step := size - |Strays(rows, tag)|;
      OneMore(turns - 1, step);
      var init := StraysListedFirst(rows, tag, size, turns - 1);
      var before := End(rows, tag, init);
      var gone := PickSubset(Tagged(before, tag), step);
      var page := StraysFirst(before, tag, size, gone);
      AfterDelete(before, tag, gone);
      pages := init + [page];
      assert pages[..|pages| - 1] == init;
    }
  }

  /** Past the bound, some server order leaves tagged rows behind. */
  lemma StrandsPastBound(rows: Rows, tag: string, size: nat, turns: nat) returns (pages: seq<set<Id>>)
    requires Tagged(rows, tag) != {} && turns > 0
    requires |Strays(rows, tag)| < size ==> |Tagged(rows, tag)| > turns * (size - |Strays(rows, tag)|)
    ensures Run(rows, tag, size, turns, pages) && Tagged(End(rows, tag, pages), tag) != {}
  {
    if |Strays(rows, tag)| >= size {
      var page := PickSubset(Strays(rows, tag), size);
      StraysOnly(rows, tag, size, page);
      pages := [page];
      assert pages[..0] == [];
      DeletesNothing(rows, tag, page);
    } else {
      pages := StraysListedFirst(rows, tag, size, turns);
    }
  }

  lemma StraysOnly(rows: Rows, tag: string, size: nat, page: set<Id>)
    requires page <= Strays(rows, tag) && |page| == size
    ensures IsPageOne(rows, tag, size, page) && Deletes(rows, tag, page) == {}
  {
    FoundCount(rows, tag);
    Subset(page, Strays(rows, tag));
  }

  lemma FoundCount(rows: Rows, tag: string)
    ensures Found(rows, tag) <= rows.Keys
    ensures |Found(rows, tag)| == |Tagged(rows, tag)| + |Strays(rows, tag)|
  {
  }

  lemma StraysFirst(rows: Rows, tag: string, size: nat, gone: set<Id>) returns (page: set<Id>)
    requires gone <= Tagged(rows, tag) && |gone| + |Strays(rows, tag)| == size && gone != {}
    ensures IsPageOne(rows, tag, size, page) && Deletes(rows, tag, page) == gone
  {
    page := Strays(rows, tag) + gone;
    FoundCount(rows, tag);
    Subset(gone, Tagged(rows, tag));
    assert |page| == |Strays(rows, tag)| + |gone|;
  }

  /** The drain empties the project of tagged rows in every server order exactly when there are
      none, or the strays leave room on a page and 200 such pages hold all the tagged rows. */
  lemma DrainBound(rows: Rows, tag: string, size: nat)
    ensures (forall pages | Run(rows, tag, size, 200, pages) :: Tagged(End(rows, tag, pages), tag) == {})
       <==> (Tagged(rows, tag) == {} ||
             (|Strays(rows, tag)| < size && |Tagged(rows, tag)| <= 200 * (size - |Strays(rows, tag)|)))
  {
    if |Strays(rows, tag)| < size && |Tagged(rows, tag)| <= GUARD * (size - |Strays(rows, tag)|) {
      forall pages | Run(rows, tag, size, GUARD, pages) ensures Tagged(End(rows, tag, pages), tag) == {} {
        DrainsWithinBound(rows, tag, size, GUARD, pages);
      }
    } else if Tagged(rows, tag) != {} {
      var pages := StrandsPastBound(rows, tag, size, GUARD);
    } else {
      forall pages: seq<set<Id>> ensures Tagged(End(rows, tag, pages), tag) == {} {
        StaysEmpty(rows, tag, pages);
      }
    }
  }

  lemma {:induction false} StaysEmpty(rows: Rows, tag: string, pages: seq<set<Id>>)
    requires Tagged(rows, tag) == {}
    ensures Tagged(End(rows, tag, pages), tag) == {}
  {
    if pages != [] { StaysEmpty(rows, tag, pages[..|pages| - 1]); }
  }
}
