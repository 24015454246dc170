/** e2e/scripts/coverage-report.ts, the route matcher: every referenced path is attributed to
    the most literal declared route, found through buckets keyed by segment count. */
module Routes {
  import Text

  type Path = string

  const WILDCARD := ":x"

  /** `path.split("/")`. */
  function Segments(path: Path): (r: seq<string>)
    ensures r != []
  {
    if path == "" then [""]
    else if path[0] == '/' then [""] + Segments(path[1..])
    else var rest := Segments(path[1..]); [[path[0]] + rest[0]] + rest[1..]
  }

  datatype Fit = Miss | Hit(wildcards: nat)

  /** Segment by segment: equal, or a wildcard on either side; counts the latter. */
  function FitSegments(cand: seq<string>, ref: seq<string>): Fit
    requires |cand| == |ref|
  {
    if cand == [] then Hit(0)
    else if cand[0] == ref[0] then FitSegments(cand[1..], ref[1..])
    else if cand[0] == WILDCARD || ref[0] == WILDCARD then
      match FitSegments(cand[1..], ref[1..])
      case Miss => Miss
      case Hit(n) => Hit(n + 1)
    else Miss
  }

  /** The path cut at its slashes, and nowhere else. */
  lemma {:induction false} SegmentsAre(path: Path)
    ensures Text.Join(Segments(path), "/") == path
    ensures forall i | 0 <= i < |Segments(path)| :: '/' !in Segments(path)[i]
  {
    if path != "" {
      var rest := Segments(path[1..]);
      SegmentsAre(path[1..]);
      assert path == [path[0]] + path[1..];
      if path[0] == '/' {
        assert ([""] + rest)[1..] == rest && "" + "/" + Text.Join(rest, "/") == "/" + Text.Join(rest, "/");
      } else {
        var all := [[path[0]] + rest[0]] + rest[1..];
        assert all[1..] == rest[1..];
        if |rest| > 1 {
          assert [path[0]] + rest[0] + "/" + Text.Join(rest[1..], "/")
              == [path[0]] + (rest[0] + "/" + Text.Join(rest[1..], "/"));
        }
      }
    }
  }

  /** Two lists of segments fit when they agree wherever neither has the wildcard, and the wildcards
      counted are the places where they differ. */
  lemma {:induction false} FitIff(cand: seq<string>, ref: seq<string>)
    requires |cand| == |ref|
    ensures FitSegments(cand, ref).Hit?
       <==> forall i | 0 <= i < |cand| :: cand[i] == ref[i] || cand[i] == ":x" || ref[i] == ":x"
    ensures FitSegments(cand, ref).Hit? ==> FitSegments(cand, ref).wildcards == Differences(cand, ref)
  {
    if cand != [] {
      FitIff(cand[1..], ref[1..]);
      assert forall i | 1 <= i < |cand| :: cand[i] == cand[1..][i - 1] && ref[i] == ref[1..][i - 1];
      DifferencesFirst(cand, ref);
    }
  }

  /** In how many places two lists differ. */
  function Differences(cand: seq<string>, ref: seq<string>): nat
    requires |cand| == |ref|
  {
    if cand == [] then 0
    else
      var n := |cand| - 1;
      Differences(cand[..n], ref[..n]) + if cand[n] == ref[n] then 0 else 1
  }

  lemma {:induction false} DifferencesFirst(cand: seq<string>, ref: seq<string>)
    requires |cand| == |ref| && cand != []
    ensures Differences(cand, ref) == (if cand[0] == ref[0] then 0 else 1) + Differences(cand[1..], ref[1..])
  {
    var n := |cand| - 1;
    if n > 0 {
      DifferencesFirst(cand[..n], ref[..n]);
      assert cand[..n][1..] == cand[1..][..n - 1] && ref[..n][1..] == ref[1..][..n - 1];
    }
  }

  /** How a declared route answers a referenced path. */
  function Fits(route: Path, ref: Path): Fit {
    if |Segments(route)| == |Segments(ref)| then FitSegments(Segments(route), Segments(ref)) else Miss
  }

  // ----- the attribution as a reader would say it -----

  /** `i` is the first of the declared routes that fit `ref` with the fewest wildcards. */
  ghost predicate MostLiteral(declared: seq<Path>, ref: Path, i: nat) {
    && i < |declared|
    && Fits(declared[i], ref).Hit?
    && forall k | 0 <= k < |declared| && Fits(declared[k], ref).Hit? ::
         var (here, there) := (Fits(declared[i], ref).wildcards, Fits(declared[k], ref).wildcards);
         here < there || (here == there && i <= k)
  }

  /** The routes covered by a collection of references. The empty route is falsy in the source
      and never recorded. */
  ghost function Covered(declared: seq<Path>, referenced: set<Path>): (r: set<Path>)
    ensures forall route :: route in r <==>
              route != "" && exists ref, i | ref in referenced && 0 <= i < |declared| ::
                               MostLiteral(declared, ref, i) && declared[i] == route
  {
    set ref, i | ref in referenced && 0 <= i < |declared| && MostLiteral(declared, ref, i) && declared[i] != ""
      :: declared[i]
  }

  // ----- the implementation -----

  /** The best candidate of the inner loop: `None` is the source's null and infinity. */
  datatype Best = None | Some(route: Path, wildcards: nat)

  function Improve(best: Best, route: Path, ref: Path): Best {
    match Fits(route, ref)
    case Miss => best
    case Hit(n) => if best.None? || n < best.wildcards then Some(route, n) else best
  }

  function ScanAll(routes: seq<Path>, ref: Path): Best {
    if routes == [] then None
    else Improve(ScanAll(routes[..|routes| - 1], ref), routes[|routes| - 1], ref)
  }

  /** The declared routes with `n` segments, in declaration order. */
  function WithSegments(declared: seq<Path>, n: nat): seq<Path> {
    if declared == [] then []
    else
      var last := declared[|declared| - 1];
      WithSegments(declared[..|declared| - 1], n) + if |Segments(last)| == n then [last] else []
  }

  /** Looking only in the bucket of the right length finds what a scan over everything finds. */
  lemma {:induction false} BucketSuffices(declared: seq<Path>, ref: Path)
    ensures ScanAll(WithSegments(declared, |Segments(ref)|), ref) == ScanAll(declared, ref)
  {
    if declared != [] {
      var n := |Segments(ref)|;
      var init, last := declared[..|declared| - 1], declared[|declared| - 1];
      BucketSuffices(init, ref);
      var bucket := WithSegments(declared, n);
      if |Segments(last)| == n {
        assert bucket[..|bucket| - 1] == WithSegments(init, n);
      } else {
        assert bucket == WithSegments(init, n);
      }
    }
  }

  /** The scan finds the most literal route, or nothing fits at all. */
  lemma {:induction false} ScanFindsMostLiteral(declared: seq<Path>, ref: Path)
    ensures ScanAll(declared, ref).None? <==> forall k | 0 <= k < |declared| :: Fits(declared[k], ref).Miss?
    ensures ScanAll(declared, ref).Some? ==>
              exists i | 0 <= i < |declared| :: MostLiteral(declared, ref, i)
                && ScanAll(declared, ref) == Some(declared[i], Fits(declared[i], ref).wildcards)
  {
    hide Fits;
    if declared != [] {
      var n := |declared| - 1;
      var init := declared[..n];
      ScanFindsMostLiteral(init, ref);
      var before := ScanAll(init, ref);
      if before.Some? {
        var i :| 0 <= i < n && MostLiteral(init, ref, i)
                 && before == Some(init[i], Fits(init[i], ref).wildcards);
        assert forall k | 0 <= k < n :: init[k] == declared[k];
        if ScanAll(declared, ref) == before {
          assert MostLiteral(declared, ref, i);
        } else {
          assert MostLiteral(declared, ref, n);
        }
      } else if Fits(declared[n], ref).Hit? {
        assert forall k | 0 <= k < n :: init[k] == declared[k];
        assert MostLiteral(declared, ref, n);
      } else {
        assert forall k | 0 <= k < n :: init[k] == declared[k];
      }
    }
  }

  lemma MostLiteralIsUnique(declared: seq<Path>, ref: Path, i: nat, k: nat)
    requires MostLiteral(declared, ref, i) && MostLiteral(declared, ref, k)
    ensures i == k
  {
  }

  /** The `for` over the segments of one candidate, leaving at the first mismatch. */
  method MatchSegments(cand: seq<string>, ref: seq<string>) returns (matches: bool, wildcards: nat)
    requires |cand| == |ref|
    ensures (if matches then Hit(wildcards) else Miss) == FitSegments(cand, ref)
  {
    wildcards, matches := 0, true;
    for i := 0 to |cand|
      invariant FitSegments(cand, ref) ==
                match FitSegments(cand[i..], ref[i..])
                case Miss => Miss
                case Hit(n) => Hit(n + wildcards)
    {
      if cand[i] == ref[i] { continue; }
      if cand[i] == WILDCARD || ref[i] == WILDCARD {
        wildcards := wildcards + 1;
        continue;
      }
      matches := false;
      return;
    }
  }

  /** The first loop: the declared routes sorted into buckets by segment count. */
  method BuildBuckets(declared: seq<Path>) returns (bySegmentCount: map<nat, seq<Path>>)
    ensures forall n: nat ::
              WithSegments(declared, n) == if n in bySegmentCount then bySegmentCount[n] else []
  {
    bySegmentCount := map[];
    for i := 0 to |declared|
      invariant forall n: nat ::
                  WithSegments(declared[..i], n) == if n in bySegmentCount then bySegmentCount[n] else []
    {
      var n := |Segments(declared[i])|;
      if n !in bySegmentCount { bySegmentCount := bySegmentCount[n := []]; }
      bySegmentCount := bySegmentCount[n := bySegmentCount[n] + [declared[i]]];
      assert declared[..i + 1][..i] == declared[..i];
    }
    assert declared[..|declared|] == declared;
  }

  /** The loop over one bucket. */
  method BestInBucket(bucket: seq<Path>, ref: Path) returns (best: Best)
    requires forall c | 0 <= c < |bucket| :: |Segments(bucket[c])| == |Segments(ref)|
    ensures best == ScanAll(bucket, ref)
  {
    var refSegs := Segments(ref);
    best := None;
    for c := 0 to |bucket|
      invariant best == ScanAll(bucket[..c], ref)
    {
      var matches, wildcards := MatchSegments(Segments(bucket[c]), refSegs);
      if matches && (best.None? || wildcards < best.wildcards) {
        best := Some(bucket[c], wildcards);
      }
      assert bucket[..c + 1][..c] == bucket[..c];
    }
    assert bucket[..|bucket|] == bucket;
  }

  /** The candidates of one reference: those of its length. */
  method BestFor(ghost declared: seq<Path>, bySegmentCount: map<nat, seq<Path>>, ref: Path) returns (best: Best)
    requires forall n: nat ::
               WithSegments(declared, n) == if n in bySegmentCount then bySegmentCount[n] else []
    ensures best == ScanAll(declared, ref)
  {
    hide WithSegments, ScanAll, Segments;
    var n := |Segments(ref)|;
    forall c | 0 <= c < |WithSegments(declared, n)| ensures |Segments(WithSegments(declared, n)[c])| == n {
      BucketHasLength(declared, n, c);
    }
    best := BestInBucket(if n in bySegmentCount then bySegmentCount[n] else [], ref);
    BucketSuffices(declared, ref);
  }

  /** coveredRoutePatterns. */
  method CoveredRoutePatterns(declared: seq<Path>, referenced: seq<Path>) returns (covered: set<Path>)
    ensures covered == Covered(declared, set ref | ref in referenced)
  {
    hide Covered, ScanAll, WithSegments;
    var bySegmentCount := BuildBuckets(declared);
    covered := {};
    CoveredNothing(declared);
    for r := 0 to |referenced|
      invariant covered == Covered(declared, set ref | ref in referenced[..r])
    {
      var ref := referenced[r];
      var best := BestFor(declared, bySegmentCount, ref);
      CoveredAddsBest(declared, referenced[..r], ref);
      assert referenced[..r + 1] == referenced[..r] + [ref];
      if best.Some? && best.route != "" { covered := covered + {best.route}; }
    }
    assert referenced[..|referenced|] == referenced;
  }

  lemma CoveredNothing(declared: seq<Path>)
    ensures Covered(declared, set ref: Path | ref in []) == {}
  {
  }

  lemma {:induction false} BucketHasLength(declared: seq<Path>, n: nat, c: nat)
    requires c < |WithSegments(declared, n)|
    ensures |Segments(WithSegments(declared, n)[c])| == n
  {
    var init := declared[..|declared| - 1];
    if c < |WithSegments(init, n)| { BucketHasLength(init, n, c); }
  }

  function Contribution(best: Best): set<Path> {
    if best.Some? && best.route != "" then {best.route} else {}
  }

  lemma CoveredAddsBest(declared: seq<Path>, refs: seq<Path>, ref: Path)
    ensures Covered(declared, set x | x in refs + [ref])
         == Covered(declared, set x | x in refs) + Contribution(ScanAll(declared, ref))
  {
    var best := ScanAll(declared, ref);
    var old', new' := set x | x in refs, set x | x in refs + [ref];
    assert new' == old' + {ref};
    CoveredUnion(declared, old', {ref});
    ScanFindsMostLiteral(declared, ref);
    var one := Covered(declared, {ref});
    if best.Some? {
      var i :| 0 <= i < |declared| && MostLiteral(declared, ref, i) && best.route == declared[i];
      forall k | 0 <= k < |declared| && MostLiteral(declared, ref, k) ensures k == i {
        MostLiteralIsUnique(declared, ref, i, k);
      }
    }
    assert one == Contribution(best);
  }

  // ----- what the attribution means -----

  /** Covering a union of references is the union of what each covers. */
  lemma CoveredUnion(declared: seq<Path>, a: set<Path>, b: set<Path>)
    ensures Covered(declared, a + b) == Covered(declared, a) + Covered(declared, b)
  {
    var whole, parts := Covered(declared, a + b), Covered(declared, a) + Covered(declared, b);
    forall route | route in whole ensures route in parts {
      var ref, i :| ref in a + b && 0 <= i < |declared| && MostLiteral(declared, ref, i) && declared[i] == route;
      if ref in a {
        assert route in Covered(declared, a);
      } else {
        assert ref in b;
      }
    }
    forall route | route in parts ensures route in whole {
      if route in Covered(declared, a) {
        var ref, i :| ref in a && 0 <= i < |declared| && MostLiteral(declared, ref, i) && declared[i] == route;
        assert ref in a + b;
      } else {
        var ref, i :| ref in b && 0 <= i < |declared| && MostLiteral(declared, ref, i) && declared[i] == route;
        assert ref in a + b;
      }
    }
  }

  lemma {:induction false} FitsExactly(cand: seq<string>, ref: seq<string>)
    requires |cand| == |ref|
    ensures FitSegments(cand, ref) == Hit(0) <==> cand == ref
  {
    if cand != [] {
      FitsExactly(cand[1..], ref[1..]);
      assert cand == [cand[0]] + cand[1..] && ref == [ref[0]] + ref[1..];
    }
  }

  lemma {:induction false} SegmentsInjective(a: Path, b: Path)
    requires Segments(a) == Segments(b)
    ensures a == b
  {
    if a != "" && b != "" {
      var x, y := Segments(a[1..]), Segments(b[1..]);
      assert a == [a[0]] + a[1..] && b == [b[0]] + b[1..];
      if a[0] == '/' {
        assert b[0] == '/' by { assert Segments(a)[0] == ""; }
        assert x == Segments(a)[1..] && y == Segments(b)[1..];
      } else {
        assert Segments(a)[0] == [a[0]] + x[0];
        assert b[0] != '/';
        assert Segments(b)[0] == [b[0]] + y[0];
        assert x[0] == Segments(a)[0][1..] && y[0] == Segments(b)[0][1..];
        assert x[1..] == Segments(a)[1..] && y[1..] == Segments(b)[1..];
        assert x == [x[0]] + x[1..] && y == [y[0]] + y[1..];
      }
      SegmentsInjective(a[1..], b[1..]);
    } else {
      assert (Segments(a) == [""] ==> a == "") && (Segments(b) == [""] ==> b == "");
    }
  }

  /** A reference that is itself declared covers that route and no other: a wildcard sibling
      never takes it. */
  lemma DeclaredCoversItself(declared: seq<Path>, ref: Path)
    requires ref in declared && ref != ""
    ensures Covered(declared, {ref}) == {ref}
  {
    var k :| 0 <= k < |declared| && declared[k] == ref;
    FitsExactly(Segments(ref), Segments(ref));
    ScanFindsMostLiteral(declared, ref);
    var i :| 0 <= i < |declared| && MostLiteral(declared, ref, i);
    forall j | 0 <= j < |declared| && MostLiteral(declared, ref, j) ensures declared[j] == ref {
      FitsExactly(Segments(declared[j]), Segments(ref));
      SegmentsInjective(declared[j], ref);
    }
  }

  /** A reference dangles, covering nothing, exactly when no declared route fits it. */
  lemma DanglingIff(declared: seq<Path>, ref: Path)
    requires "" !in declared
    ensures Covered(declared, {ref}) == {} <==> forall k | 0 <= k < |declared| :: Fits(declared[k], ref).Miss?
  {
    ScanFindsMostLiteral(declared, ref);
    if ScanAll(declared, ref).Some? {
      var i :| 0 <= i < |declared| && MostLiteral(declared, ref, i);
      assert declared[i] in Covered(declared, {ref});
    }
  }
}
