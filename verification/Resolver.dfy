/** e2e/scripts/coverage-report.ts, the URL-builder resolver: wrappers around wrappers are
    resolved by five passes over a list, each pass seeing what it has resolved so far. */
module Resolver {

  /** `name` produces the path of `target` followed by `arg`; `param` is its own parameter. */
  datatype Wrapper = Wrapper(name: string, target: string, arg: string, param: string)

  type Builders = map<string, string>

  const PASSES := 5

  /** The template without a trailing interpolation of the wrapper's own parameter. */
  function StripTrailingParam(template: string, param: string): string {
    var trailing := "${" + param + "}";
    var keep := |template| - |trailing|;
    if param != "" && keep >= 0 && template[keep..] == trailing then template[..keep] else template
  }

  /** A template that ends in the parameter's interpolation loses it; any other one is kept. */
  lemma StripsOnlyTheParam(template: string, param: string)
    requires param != ""
    ensures StripTrailingParam(template + "${" + param + "}", param) == template
    ensures StripTrailingParam(template, param) == template
         || template == StripTrailingParam(template, param) + "${" + param + "}"
    ensures StripTrailingParam(template, "") == template
  {
    var whole, trailing := template + "${" + param + "}", "${" + param + "}";
    assert whole == template + trailing && whole[|template|..] == trailing && whole[..|template|] == template;
    var keep := |template| - |trailing|;
    if keep >= 0 && template[keep..] == trailing {
      assert template == template[..keep] + trailing;
      assert template[..keep] + "${" + param + "}" == template[..keep] + trailing;
    }
  }

  function Suffix(w: Wrapper): string {
    StripTrailingParam(w.arg, w.param)
  }

  function Visit(m: Builders, w: Wrapper): Builders {
    if w.name in m || w.target !in m then m else m[w.name := m[w.target] + Suffix(w)]
  }

  /** The builders after `k` whole passes and the first `i` wrappers of one more. */
  function After(base: Builders, ws: seq<Wrapper>, k: nat, i: nat): Builders
    requires i <= |ws|
    decreases k, i
  {
    if i > 0 then Visit(After(base, ws, k, i - 1), ws[i - 1])
    else if k > 0 then After(base, ws, k - 1, |ws|)
    else base
  }

  /** The pass loop. `appendable` receives exactly the entries that `builders` receives. */
  method ResolveWrappers(base: Builders, appendBase: Builders, ws: seq<Wrapper>)
    returns (builders: Builders, appendable: Builders)
    ensures builders == After(base, ws, PASSES, 0)
    ensures forall name | name in builders && name !in base ::
              name in appendable && appendable[name] == builders[name]
    ensures forall name | name in appendBase && (name in base || name !in builders) ::
              name in appendable && appendable[name] == appendBase[name]
    ensures appendable.Keys == appendBase.Keys + (builders.Keys - base.Keys)
  {
    builders, appendable := base, appendBase;
    for pass := 0 to PASSES
      invariant builders == After(base, ws, pass, 0)
      invariant base.Keys <= builders.Keys
      invariant forall name | name in builders && name !in base ::
                  name in appendable && appendable[name] == builders[name]
      invariant forall name | name in appendBase && (name in base || name !in builders) ::
                  name in appendable && appendable[name] == appendBase[name]
      invariant appendable.Keys == appendBase.Keys + (builders.Keys - base.Keys)
    {
      for i := 0 to |ws|
        invariant builders == After(base, ws, pass, i)
        invariant base.Keys <= builders.Keys
        invariant forall name | name in builders && name !in base ::
                    name in appendable && appendable[name] == builders[name]
        invariant forall name | name in appendBase && (name in base || name !in builders) ::
                    name in appendable && appendable[name] == appendBase[name]
        invariant appendable.Keys == appendBase.Keys + (builders.Keys - base.Keys)
      {
        var w := ws[i];
        if w.name !in builders && w.target in builders {
          var resolved := builders[w.target] + StripTrailingParam(w.arg, w.param);
          builders := builders[w.name := resolved];
          appendable := appendable[w.name := resolved];
        }
      }
    }
  }

  // ----- which names are resolved, exactly -----

  /** Wrapper `j` is reached within `p` passes: its target is a base builder, or is a wrapper
      that stands earlier in the list and is reached within `p` passes, or one that stands at or
      after `j` and is reached within `p - 1`. */
  ghost predicate ReachedBy(base: Builders, ws: seq<Wrapper>, j: nat, p: nat)
    requires j < |ws|
    decreases p, j
  {
    p > 0 &&
    (ws[j].target in base ||
     exists t | 0 <= t < |ws| :: ws[t].name == ws[j].target &&
                                 if t < j then ReachedBy(base, ws, t, p) else ReachedBy(base, ws, t, p - 1))
  }

  /** `name` is a base builder or names a wrapper reached in time. */
  ghost predicate Reached(base: Builders, ws: seq<Wrapper>, name: string, k: nat, i: nat) {
    name in base ||
    exists j | 0 <= j < |ws| :: ws[j].name == name && ReachedBy(base, ws, j, if j < i then k + 1 else k)
  }

  lemma {:induction false} ReachedByMonotone(base: Builders, ws: seq<Wrapper>, j: nat, p: nat)
    requires j < |ws| && ReachedBy(base, ws, j, p)
    ensures ReachedBy(base, ws, j, p + 1)
    decreases p, j
  {
    if ws[j].target !in base {
      var t :| 0 <= t < |ws| && ws[t].name == ws[j].target
               && if t < j then ReachedBy(base, ws, t, p) else ReachedBy(base, ws, t, p - 1);
      ReachedByMonotone(base, ws, t, if t < j then p else p - 1);
    }
  }

  /** The passes resolve exactly the names that are reached: the number of passes a wrapper
      needs is one more than the number of forward references on its chain. */
  lemma {:induction false} ResolvedIffReached(base: Builders, ws: seq<Wrapper>, k: nat, i: nat)
    requires i <= |ws|
    ensures forall name :: name in After(base, ws, k, i) <==> Reached(base, ws, name, k, i)
    decreases k, i
  {
    if i > 0 {
      ResolvedIffReached(base, ws, k, i - 1);
      forall name ensures name in After(base, ws, k, i) <==> Reached(base, ws, name, k, i) {
        VisitReaches(base, ws, k, i - 1, name);
      }
    } else if k > 0 {
      ResolvedIffReached(base, ws, k - 1, |ws|);
      forall name ensures Reached(base, ws, name, k - 1, |ws|) <==> Reached(base, ws, name, k, 0) {
      }
    } else {
      forall name ensures Reached(base, ws, name, 0, 0) <==> name in base {
      }
    }
  }

  lemma VisitReaches(base: Builders, ws: seq<Wrapper>, k: nat, i: nat, name: string)
    requires i < |ws|
    requires forall n :: n in After(base, ws, k, i) <==> Reached(base, ws, n, k, i)
    ensures name in After(base, ws, k, i + 1) <==> Reached(base, ws, name, k, i + 1)
  {
    var m, w := After(base, ws, k, i), ws[i];
    assert w.target in m <==> ReachedBy(base, ws, i, k + 1);
    if Reached(base, ws, name, k, i) && name !in base {
      var j :| 0 <= j < |ws| && ws[j].name == name && ReachedBy(base, ws, j, if j < i then k + 1 else k);
      if j == i { ReachedByMonotone(base, ws, i, k); }
      assert Reached(base, ws, name, k, i + 1);
    }
    if Reached(base, ws, name, k, i + 1) && name !in base {
      var j :| 0 <= j < |ws| && ws[j].name == name && ReachedBy(base, ws, j, if j < i + 1 then k + 1 else k);
      if j != i { assert Reached(base, ws, name, k, i); }
    }
  }

  // ----- chains, cycles, and the fixed point -----

  /** `name` reaches a base builder through at most `n` wrappers. */
  ghost predicate ChainWithin(base: Builders, ws: seq<Wrapper>, name: string, n: nat)
    decreases n
  {
    name in base ||
    (n > 0 && exists j | 0 <= j < |ws| :: ws[j].name == name && ChainWithin(base, ws, ws[j].target, n - 1))
  }

  /** Depth-complete: `k` passes resolve every chain of at most `k` wrappers, in any order. */
  lemma {:induction false} PassesCoverDepth(base: Builders, ws: seq<Wrapper>, name: string, k: nat)
    requires ChainWithin(base, ws, name, k)
    ensures name in After(base, ws, k, 0)
    decreases k
  {
    ResolvedIffReached(base, ws, k, 0);
    if name !in base {
      var j :| 0 <= j < |ws| && ws[j].name == name && ChainWithin(base, ws, ws[j].target, k - 1);
      PassesCoverDepth(base, ws, ws[j].target, k - 1);
      ResolvedIffReached(base, ws, k - 1, 0);
      if ws[j].target !in base {
        var t :| 0 <= t < |ws| && ws[t].name == ws[j].target && ReachedBy(base, ws, t, k - 1);
        if t < j { ReachedByMonotone(base, ws, t, k - 1); }
      }
      assert ReachedBy(base, ws, j, k);
    }
  }

  /** Every wrapper named in `names` points back into `names`, and none of them is a builder. */
  ghost predicate ClosedAwayFromBase(base: Builders, ws: seq<Wrapper>, names: set<string>) {
    && names !! base.Keys
    && forall j | 0 <= j < |ws| && ws[j].name in names :: ws[j].target in names
  }

  /** Names on a cycle are never resolved, whatever the number of passes. */
  lemma {:induction false} CyclesStayUnresolved(base: Builders, ws: seq<Wrapper>, names: set<string>, k: nat, i: nat)
    requires i <= |ws| && ClosedAwayFromBase(base, ws, names)
    ensures After(base, ws, k, i).Keys !! names
    decreases k, i
  {
    if i > 0 {
      CyclesStayUnresolved(base, ws, names, k, i - 1);
    } else if k > 0 {
      CyclesStayUnresolved(base, ws, names, k - 1, |ws|);
    }
  }

  lemma {:induction false} BaseStays(base: Builders, ws: seq<Wrapper>, k: nat, i: nat)
    requires i <= |ws|
    ensures base.Keys <= After(base, ws, k, i).Keys
    decreases k, i
  {
    if i > 0 { BaseStays(base, ws, k, i - 1); } else if k > 0 { BaseStays(base, ws, k - 1, |ws|); }
  }

  /** No wrapper has anything left to resolve. */
  ghost predicate IsFixedPoint(m: Builders, ws: seq<Wrapper>) {
    forall j | 0 <= j < |ws| :: ws[j].target in m ==> ws[j].name in m
  }

  function Names(ws: seq<Wrapper>): (r: set<string>)
    ensures forall name :: name in r <==> exists j | 0 <= j < |ws| :: ws[j].name == name
  {
    set j | 0 <= j < |ws| :: ws[j].name
  }

  lemma {:induction false} NamesAreFew(ws: seq<Wrapper>)
    ensures |Names(ws)| <= |ws|
  {
    if ws != [] {
      var n := |ws| - 1;
      NamesAreFew(ws[..n]);
      assert Names(ws) == Names(ws[..n]) + {ws[n].name};
    }
  }

  /** The names that the passes have added. */
  function Added(base: Builders, ws: seq<Wrapper>, k: nat): set<string> {
    After(base, ws, k, 0).Keys - base.Keys
  }

  lemma {:induction false} VisitsAdd(base: Builders, ws: seq<Wrapper>, k: nat, i: nat, n: nat)
    requires i <= n <= |ws|
    ensures After(base, ws, k, i).Keys <= After(base, ws, k, n).Keys
  {
    if i < n { VisitsAdd(base, ws, k, i, n - 1); }
  }

  lemma {:induction false} AddedAreNames(base: Builders, ws: seq<Wrapper>, k: nat, i: nat)
    requires i <= |ws|
    ensures After(base, ws, k, i).Keys <= base.Keys + Names(ws)
    decreases k, i
  {
    if i > 0 { AddedAreNames(base, ws, k, i - 1); } else if k > 0 { AddedAreNames(base, ws, k - 1, |ws|); }
  }

  /** A pass that is not at a fixed point adds a name, and a fixed point stays. */
  lemma PassAdds(base: Builders, ws: seq<Wrapper>, k: nat)
    ensures Added(base, ws, k) <= Added(base, ws, k + 1)
    ensures !IsFixedPoint(After(base, ws, k, 0), ws) ==> Added(base, ws, k) != Added(base, ws, k + 1)
  {
    VisitsAdd(base, ws, k, 0, |ws|);
    BaseStays(base, ws, k, 0);
    if !IsFixedPoint(After(base, ws, k, 0), ws) {
      var j :| 0 <= j < |ws| && ws[j].target in After(base, ws, k, 0) && ws[j].name !in After(base, ws, k, 0);
      VisitsAdd(base, ws, k, 0, j);
      VisitsAdd(base, ws, k, j + 1, |ws|);
      assert ws[j].name in After(base, ws, k, j + 1);
      assert ws[j].name in Added(base, ws, k + 1);
    }
  }

  lemma {:induction false} PassesAdd(base: Builders, ws: seq<Wrapper>, k: nat)
    ensures IsFixedPoint(After(base, ws, k, 0), ws) || |Added(base, ws, k)| >= k
  {
    hide IsFixedPoint, Added;
    if k > 0 {
      PassesAdd(base, ws, k - 1);
      PassAdds(base, ws, k - 1);
      if IsFixedPoint(After(base, ws, k - 1, 0), ws) {
        FixedPointStays(base, ws, k - 1, |ws|);
      } else {
        ProperSubset(Added(base, ws, k - 1), Added(base, ws, k));
      }
    }
  }

  lemma ProperSubset(a: set<string>, b: set<string>)
    requires a <= b && a != b
    ensures |a| < |b|
  {
    assert |b - a| > 0 && b == a + (b - a);
  }

  lemma {:induction false} FixedPointStays(base: Builders, ws: seq<Wrapper>, k: nat, i: nat)
    requires i <= |ws| && IsFixedPoint(After(base, ws, k, 0), ws)
    ensures After(base, ws, k, i) == After(base, ws, k, 0)
  {
    if i > 0 { FixedPointStays(base, ws, k, i - 1); }
  }

  lemma AllOf(a: set<string>, b: set<string>)
    requires a <= b && |a| >= |b|
    ensures a == b
  {
    if a != b { ProperSubset(a, b); }
  }

  /** As many passes as there are wrappers are always enough. */
  lemma ManyPassesSuffice(base: Builders, ws: seq<Wrapper>)
    ensures IsFixedPoint(After(base, ws, |ws|, 0), ws)
  {
    hide After;
    PassesAdd(base, ws, |ws|);
    if !IsFixedPoint(After(base, ws, |ws|, 0), ws) {
      NamesAreFew(ws);
      AddedAreNames(base, ws, |ws|, 0);
      AllOf(Added(base, ws, |ws|), Names(ws));
    }
  }

  /** What as many passes as there are wrappers can reach, `k` passes reach. */
  ghost predicate EnoughPasses(base: Builders, ws: seq<Wrapper>, k: nat) {
    forall j: nat | j < |ws| && ReachedBy(base, ws, j, |ws|) :: Reached(base, ws, ws[j].name, k, 0)
  }

  /** `k` passes have reached a fixed point exactly when every wrapper that leads to a builder at all
      leads there with fewer than `k` forward references: a test on the list of wrappers. */
  lemma FixedPointIff(base: Builders, ws: seq<Wrapper>, k: nat)
    ensures IsFixedPoint(After(base, ws, k, 0), ws) <==> EnoughPasses(base, ws, k)
  {
    hide After, Reached, ReachedBy;
    var m := After(base, ws, k, 0);
    ResolvedIffReached(base, ws, k, 0);
    if IsFixedPoint(m, ws) {
      forall j: nat | j < |ws| && ReachedBy(base, ws, j, |ws|) ensures Reached(base, ws, ws[j].name, k, 0) {
        FixedPointHoldsAll(base, ws, k, j, |ws|);
      }
    }
    if EnoughPasses(base, ws, k) {
      ManyPassesSuffice(base, ws);
      ResolvedIffReached(base, ws, |ws|, 0);
      forall j | 0 <= j < |ws| && ws[j].target in m ensures ws[j].name in m {
        NextPassReaches(base, ws, k, j);
        FixedPointHoldsAll(base, ws, |ws|, j, k + 1);
        EnoughCovers(base, ws, k, ws[j].name);
      }
    }
  }

  lemma EnoughCovers(base: Builders, ws: seq<Wrapper>, k: nat, name: string)
    requires EnoughPasses(base, ws, k) && Reached(base, ws, name, |ws|, 0)
    ensures Reached(base, ws, name, k, 0)
  {
    hide ReachedBy;
  }

  lemma NextPassReaches(base: Builders, ws: seq<Wrapper>, k: nat, j: nat)
    requires j < |ws| && ws[j].target in After(base, ws, k, 0)
    ensures ReachedBy(base, ws, j, k + 1)
  {
    ResolvedIffReached(base, ws, k, 0);
    if ws[j].target !in base {
      var t :| 0 <= t < |ws| && ws[t].name == ws[j].target && ReachedBy(base, ws, t, k);
      ReachedByMonotone(base, ws, t, k);
    }
  }

  lemma {:induction false} FixedPointHoldsAll(base: Builders, ws: seq<Wrapper>, k: nat, j: nat, p: nat)
    requires j < |ws| && ReachedBy(base, ws, j, p)
    requires IsFixedPoint(After(base, ws, k, 0), ws)
    ensures ws[j].name in After(base, ws, k, 0)
    decreases p, j
  {
    ResolvedIffReached(base, ws, k, 0);
    if ws[j].target !in base {
      var t :| 0 <= t < |ws| && ws[t].name == ws[j].target
               && if t < j then ReachedBy(base, ws, t, p) else ReachedBy(base, ws, t, p - 1);
      FixedPointHoldsAll(base, ws, k, t, if t < j then p else p - 1);
    } else {
      assert Reached(base, ws, ws[j].target, k, 0);
    }
  }

  /** Six wrappers, each declared above the one it calls. */
  const LADDER := [Wrapper("f", "e", "/6", ""), Wrapper("e", "d", "/5", ""), Wrapper("d", "c", "/4", ""),
                   Wrapper("c", "b", "/3", ""), Wrapper("b", "a", "/2", ""), Wrapper("a", "url", "/1", "")]

  /** The five passes are not always a fixed point: here a sixth would still resolve a name. */
  lemma FivePassesCanStopShort()
    ensures !IsFixedPoint(After(map["url" := "/api"], LADDER, PASSES, 0), LADDER)
  {
    var base: Builders := map["url" := "/api"];
    forall j: nat, p: nat | j < 6 ensures ReachedBy(base, LADDER, j, p) <==> p >= 6 - j {
      LadderReached(base, j, p);
    }
    ResolvedIffReached(base, LADDER, PASSES, 0);
    assert Reached(base, LADDER, LADDER[1].name, PASSES, 0);
    assert !Reached(base, LADDER, LADDER[0].name, PASSES, 0);
  }

  lemma {:induction false} LadderReached(base: Builders, j: nat, p: nat)
    requires base == map["url" := "/api"] && j < 6
    ensures ReachedBy(base, LADDER, j, p) <==> p >= 6 - j
    decreases p, j
  {
    if p > 0 && j < 5 {
      LadderReached(base, j + 1, p - 1);
      LadderRung(j);
    } else {
      LadderRung(5);
    }
  }

  lemma LadderRung(j: nat)
    requires j < 6
    ensures j == 5 ==> LADDER[j].target == "url"
    ensures j < 5 ==> LADDER[j].target != "url"
    ensures forall t | 0 <= t < 6 :: LADDER[t].name == LADDER[j].target <==> t == j + 1
  {
  }

  // ----- what a resolved name means -----

  ghost predicate Distinct(ws: seq<Wrapper>) {
    forall i, j | 0 <= i < j < |ws| :: ws[i].name != ws[j].name
  }

  /** The recursive reading: a builder means its template, a wrapper means its target's meaning
      followed by its own argument; `None` when `fuel` wrappers do not get to a builder. */
  ghost function Meaning(base: Builders, ws: seq<Wrapper>, name: string, fuel: nat): (r: seq<string>)
    ensures |r| <= 1
    decreases fuel
  {
    if name in base then [base[name]]
    else if fuel > 0 && exists j | 0 <= j < |ws| :: ws[j].name == name then
      var j :| 0 <= j < |ws| && ws[j].name == name;
      var inner := Meaning(base, ws, ws[j].target, fuel - 1);
      if inner == [] then [] else [inner[0] + Suffix(ws[j])]
    else []
  }

  /** The number of visits made so far. */
  ghost function Visits(ws: seq<Wrapper>, k: nat, i: nat): nat
    decreases k, i
  {
    if i > 0 then Visits(ws, k, i - 1) + 1 else if k > 0 then Visits(ws, k - 1, |ws|) else 0
  }

  /** Sound: every resolved value is the recursive meaning of its name, and base builders keep
      their templates. */
  lemma {:induction false} ResolvedMeansItsChain(base: Builders, ws: seq<Wrapper>, k: nat, i: nat, name: string,
                                                 fuel: nat)
    requires i <= |ws| && Distinct(ws)
    requires name in After(base, ws, k, i) && fuel >= Visits(ws, k, i)
    ensures Meaning(base, ws, name, fuel) == [After(base, ws, k, i)[name]]
    decreases k, i
  {
    if i > 0 {
      var m, w := After(base, ws, k, i - 1), ws[i - 1];
      if name in m {
        ResolvedMeansItsChain(base, ws, k, i - 1, name, fuel);
      } else {
        BaseStays(base, ws, k, i - 1);
        assert name == w.name && w.target in m;
        ResolvedMeansItsChain(base, ws, k, i - 1, w.target, fuel - 1);
        assert forall j | 0 <= j < |ws| && ws[j].name == name :: j == i - 1;
      }
    } else if k > 0 {
      ResolvedMeansItsChain(base, ws, k - 1, |ws|, name, fuel);
    }
  }
}
