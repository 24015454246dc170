/** Tesbo-Frontend/lib/api.ts, `dedupeInFlight` and `api`: overlapping identical reads share one
    network call. The promise machinery is a step system: a call is issued, its network run is
    answered, the `finally` callback releases the map entry, and only then does the shared
    promise settle for its callers. The steps of different runs interleave freely. */
module InFlight {

  /** `verb` is the upper-cased method; `signal` says the caller brought its own AbortSignal. */
  datatype Call = Call(verb: string, path: string, signal: bool)

  datatype Stage = Running | Answered | Released | Settled

  /** `shared` runs went through the map under `key`; `started` and `released` are clock readings. */
  datatype Run = Run(key: string, shared: bool, stage: Stage, started: nat, released: nat)

  /** Who waits for which run, and since when. */
  datatype Caller = Caller(call: Call, run: nat, at: nat)

  datatype Pool = Pool(inFlight: map<string, nat>, runs: seq<Run>, callers: seq<Caller>, clock: nat)

  datatype Event = Issue(call: Call) | Answer(run: nat) | Release(run: nat) | Settle(run: nat)

  const EMPTY := Pool(map[], [], [], 0)

  predicate Sharable(call: Call) {
    call.verb == "GET" && !call.signal
  }

  function Key(call: Call): string {
    "GET:" + call.path
  }

  /** An entry is in the map until the `finally` callback has run. */
  predicate Unreleased(run: Run) {
    run.shared && (run.stage == Running || run.stage == Answered)
  }

  predicate Enabled(p: Pool, e: Event) {
    match e
    case Issue(_) => true
    case Answer(r) => r < |p.runs| && p.runs[r].stage == Running
    case Release(r) => r < |p.runs| && p.runs[r].shared && p.runs[r].stage == Answered
    case Settle(r) => r < |p.runs| && p.runs[r].stage == if p.runs[r].shared then Released else Answered
  }

  function Next(p: Pool, e: Event): Pool
    requires Enabled(p, e)
  {
    var now := p.clock;
    match e
    case Issue(call) =>
      var added := |p.runs|;
      var start := Run(Key(call), Sharable(call), Running, now, 0);
      if Sharable(call) && Key(call) in p.inFlight then
        p.(callers := p.callers + [Caller(call, p.inFlight[Key(call)], now)], clock := now + 1)
      else
        Pool(if Sharable(call) then p.inFlight[Key(call) := added] else p.inFlight,
             p.runs + [start], p.callers + [Caller(call, added, now)], now + 1)
    case Answer(r) => p.(runs := p.runs[r := p.runs[r].(stage := Answered)], clock := now + 1)
    case Release(r) =>
      p.(inFlight := p.inFlight - {p.runs[r].key},
         runs := p.runs[r := p.runs[r].(stage := Released, released := now)], clock := now + 1)
    case Settle(r) => p.(runs := p.runs[r := p.runs[r].(stage := Settled)], clock := now + 1)
  }

  // ----- the module state and its callbacks -----

  class RequestPool {
    var inFlight: map<string, nat>
    var runs: seq<Run>
    var callers: seq<Caller>
    var clock: nat

    function View(): Pool
      reads this
    {
      Pool(inFlight, runs, callers, clock)
    }

    constructor ()
      ensures View() == EMPTY
    {
      inFlight, runs, callers, clock := map[], [], [], 0;
    }

    /** apiRequest and the runs given to dedupeInFlight: a new network call. */
    method Start(call: Call) returns (run: nat)
      modifies this
      ensures run == |old(runs)|
      ensures runs == old(runs) + [Run(Key(call), Sharable(call), Running, clock, 0)]
      ensures unchanged(`inFlight) && unchanged(`callers) && unchanged(`clock)
    {
      run := |runs|;
      runs := runs + [Run(Key(call), Sharable(call), Running, clock, 0)];
    }

    method DedupeInFlight(call: Call) returns (run: nat)
      requires Sharable(call)
      modifies this
      ensures if Key(call) in old(inFlight)
              then run == old(inFlight)[Key(call)] && unchanged(this)
              else && run == |old(runs)|
                   && runs == old(runs) + [Run(Key(call), true, Running, clock, 0)]
                   && inFlight == old(inFlight)[Key(call) := run]
                   && unchanged(`callers) && unchanged(`clock)
    {
      var key := Key(call);
      if key in inFlight { return inFlight[key]; }
      run := Start(call);
      inFlight := inFlight[key := run];
    }

    method Api(call: Call)
      modifies this
      ensures View() == Next(old(View()), Issue(call))
    {
      var run;
      if call.verb != "GET" || call.signal {
        run := Start(call);
      } else {
        run := DedupeInFlight(call);
      }
      callers := callers + [Caller(call, run, clock)];
      clock := clock + 1;
    }

    /** The network answers or fails: `finally` does not care which. */
    method OnAnswer(r: nat)
      requires Enabled(View(), Answer(r))
      modifies this
      ensures View() == Next(old(View()), Answer(r))
    {
      runs := runs[r := runs[r].(stage := Answered)];
      clock := clock + 1;
    }

    /** The `finally` callback deletes whatever the map holds under its key. */
    method OnFinally(r: nat)
      requires Enabled(View(), Release(r))
      modifies this
      ensures View() == Next(old(View()), Release(r))
    {
      inFlight := inFlight - {runs[r].key};
      runs := runs[r := runs[r].(stage := Released, released := clock)];
      clock := clock + 1;
    }

    method OnSettle(r: nat)
      requires Enabled(View(), Settle(r))
      modifies this
      ensures View() == Next(old(View()), Settle(r))
    {
      runs := runs[r := runs[r].(stage := Settled)];
      clock := clock + 1;
    }
  }

  // ----- every interleaving -----

  ghost predicate IsTrace(p: Pool, es: seq<Event>)
    decreases |es|
  {
    es == [] || (Enabled(p, es[0]) && IsTrace(Next(p, es[0]), es[1..]))
  }

  ghost function Final(p: Pool, es: seq<Event>): Pool
    requires IsTrace(p, es)
    decreases |es|
  {
    if es == [] then p else Final(Next(p, es[0]), es[1..])
  }

  /** The map lists exactly the unreleased shared runs, each under its own key. */
  ghost predicate MapIsExact(p: Pool) {
    && (forall key | key in p.inFlight ::
          p.inFlight[key] < |p.runs| && p.runs[p.inFlight[key]].key == key && Unreleased(p.runs[p.inFlight[key]]))
    && (forall r | 0 <= r < |p.runs| && Unreleased(p.runs[r]) ::
          p.runs[r].key in p.inFlight && p.inFlight[p.runs[r].key] == r)
  }

  /** Every caller waits for a run that had started, had not been released when it called, and
      carries its kind and its key. */
  ghost predicate CallersAreFresh(p: Pool) {
    forall c | 0 <= c < |p.callers| ::
      var caller := p.callers[c];
      && caller.run < |p.runs| && caller.at < p.clock
      && var run := p.runs[caller.run];
         && run.started <= caller.at
         && run.shared == Sharable(caller.call) && run.key == Key(caller.call)
         && (run.shared && !Unreleased(run) ==> caller.at < run.released)
  }

  /** A call outside the map has a run of its own. */
  ghost predicate OthersAreAlone(p: Pool) {
    forall c, d | 0 <= c < d < |p.callers| && p.callers[c].run == p.callers[d].run ::
      Sharable(p.callers[c].call) && Sharable(p.callers[d].call)
  }

  ghost predicate Sound(p: Pool) {
    (forall r | 0 <= r < |p.runs| :: p.runs[r].started < p.clock) && MapIsExact(p) && CallersAreFresh(p)
      && OthersAreAlone(p)
  }

  lemma StepKeepsMap(p: Pool, e: Event)
    requires Sound(p) && Enabled(p, e)
    ensures MapIsExact(Next(p, e))
    ensures forall r | 0 <= r < |Next(p, e).runs| :: Next(p, e).runs[r].started < Next(p, e).clock
  {
  }

  lemma IssueKeepsCallers(p: Pool, call: Call)
    requires Sound(p)
    ensures CallersAreFresh(Next(p, Issue(call))) && OthersAreAlone(Next(p, Issue(call)))
  {
    var q, n := Next(p, Issue(call)), |p.callers|;
    var last := q.callers[n];
    assert forall r | 0 <= r < |p.runs| :: q.runs[r] == p.runs[r];
    assert q.runs[last.run].key == Key(call) && q.runs[last.run].shared == Sharable(call);
    assert forall c | 0 <= c < n :: q.callers[c] == p.callers[c];
    forall c | 0 <= c < n && q.callers[c].run == last.run ensures Sharable(q.callers[c].call) && Sharable(call) {
      assert p.callers[c].run < |p.runs|;
    }
  }

  lemma SettlingKeepsCallers(p: Pool, e: Event)
    requires Sound(p) && Enabled(p, e) && !e.Issue?
    ensures CallersAreFresh(Next(p, e)) && OthersAreAlone(Next(p, e))
  {
    var q := Next(p, e);
    assert q.callers == p.callers && |q.runs| == |p.runs|;
    forall c | 0 <= c < |p.callers|
      ensures var caller, run := p.callers[c], q.runs[p.callers[c].run];
              && run.started == p.runs[caller.run].started && run.shared == p.runs[caller.run].shared
              && run.key == p.runs[caller.run].key
              && (run.shared && !Unreleased(run) ==> caller.at < run.released)
    {
    }
  }

  lemma {:induction false} TraceIsSound(p: Pool, es: seq<Event>)
    requires Sound(p) && IsTrace(p, es)
    ensures Sound(Final(p, es))
    decreases |es|
  {
    if es != [] {
      StepKeepsMap(p, es[0]);
      if es[0].Issue? { IssueKeepsCallers(p, es[0].call); } else { SettlingKeepsCallers(p, es[0]); }
      TraceIsSound(Next(p, es[0]), es[1..]);
    }
  }

  /** Some interleaving of calls, answers, releases and settlements leads here. */
  ghost predicate Reachable(p: Pool) {
    exists es :: IsTrace(EMPTY, es) && Final(EMPTY, es) == p
  }

  lemma ReachableIsSound(p: Pool)
    requires Reachable(p)
    ensures Sound(p)
  {
    var es :| IsTrace(EMPTY, es) && Final(EMPTY, es) == p;
    TraceIsSound(EMPTY, es);
  }

  /** In every interleaving: at most one run per key is between its start and its release, and a
      map entry exists exactly for such a run. */
  lemma OneRunPerKey(p: Pool, r: nat, s: nat)
    requires Reachable(p) && r < |p.runs| && s < |p.runs|
    requires p.runs[r].shared && p.runs[s].shared && p.runs[r].key == p.runs[s].key
    ensures Unreleased(p.runs[r]) && Unreleased(p.runs[s]) ==> r == s
    ensures Unreleased(p.runs[r]) <==> p.runs[r].key in p.inFlight && p.inFlight[p.runs[r].key] == r
  {
    ReachableIsSound(p);
  }

  /** In every interleaving: a caller never gets the outcome of a run that was already released,
      let alone settled, when it called. */
  lemma NeverStale(p: Pool, c: nat)
    requires Reachable(p) && c < |p.callers|
    ensures p.callers[c].run < |p.runs|
    ensures var run := p.runs[p.callers[c].run];
            && run.started <= p.callers[c].at
            && (run.shared && run.stage in {Released, Settled} ==> p.callers[c].at < run.released)
  {
    ReachableIsSound(p);
  }

  /** In every interleaving: two calls share a run only if both are plain GETs of one path. */
  lemma OnlyPlainGetsShare(p: Pool, c: nat, d: nat)
    requires Reachable(p) && c < d < |p.callers| && p.callers[c].run == p.callers[d].run
    ensures p.callers[c].call.verb == "GET" && !p.callers[c].call.signal
    ensures p.callers[d].call.verb == "GET" && !p.callers[d].call.signal
    ensures p.callers[c].call.path == p.callers[d].call.path
  {
    ReachableIsSound(p);
    var a, b := p.callers[c].call, p.callers[d].call;
    assert Key(a) == Key(b);
    assert Key(a)[4..] == a.path && Key(b)[4..] == b.path;
  }

  /** A call with another verb, or with a signal of its own, always has a run of its own and leaves
      the map as it was. */
  lemma OthersRunAlone(p: Pool, call: Call)
    requires Reachable(p) && (call.verb != "GET" || call.signal)
    ensures var q := Next(p, Issue(call));
            && |q.runs| == |p.runs| + 1 && q.inFlight == p.inFlight
            && q.callers == p.callers + [Caller(call, |p.runs|, p.clock)]
            && forall c | 0 <= c < |p.callers| :: p.callers[c].run != |p.runs|
  {
    ReachableIsSound(p);
  }

  /** The collapse does happen: a plain GET joins the unreleased run of its key if there is one,
      and otherwise starts one that later calls can join. */
  lemma OverlapIsCollapsed(p: Pool, call: Call)
    requires Reachable(p) && call.verb == "GET" && !call.signal
    ensures var q := Next(p, Issue(call));
            var run := q.callers[|q.callers| - 1].run;
            && run < |q.runs| && q.runs[run].key == "GET:" + call.path && Unreleased(q.runs[run])
            && (|q.runs| == |p.runs| <==>
                  exists r | 0 <= r < |p.runs| :: p.runs[r].key == "GET:" + call.path && Unreleased(p.runs[r]))
  {
    ReachableIsSound(p);
  }
}
