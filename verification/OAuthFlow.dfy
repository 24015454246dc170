/** Tesbo-Frontend/lib/useIntegrationOAuthConnect.ts: the popup flow behind "Connect". The refs
    and the phase are the hook's own; the browser's timers, the open channels, the pending
    promises and the closed windows are the environment. Every callback is one step, and steps
    come in any order the environment allows. */
module OAuthFlow {
  import opened Options

  type Id = nat

  datatype Phase = Idle | Opening | Waiting | Blocked | TimedOut

  /** A live browser timer and what its callback closes over. */
  datatype Timer = CloseWatch(popup: Id) | Backstop | Timeout(popup: Id)

  /** A pending status probe: an ordinary one, or the one made when the popup was seen closed,
      which is retried once. */
  datatype Probe = Check | CloseCheck(retried: bool)

  datatype Status = Connected | NotConnected | Unknown

  /** What took effect: `settledRef` reset by an attempt, or one of the three settlements. */
  datatype Effect = Reset | Succeeded | Cancelled | Expired

  /** `urls` are the pending auth-url fetches of `connect`, each with the popup it is for. */
  datatype Browser = Browser(timers: map<Id, Timer>, channels: set<Id>, closed: set<Id>,
                             urls: map<Id, Id>, probes: map<Id, Probe>, next: Id, log: seq<Effect>)

  /** `broadcast` says whether BroadcastChannel exists. */
  datatype Flow = Flow(phase: Phase, popup: Option<Id>, navigated: bool, settled: bool,
                       closeWatcher: Option<Id>, backstop: Option<Id>, timeout: Option<Id>, channel: Option<Id>,
                       broadcast: bool, env: Browser)

  datatype Event =
    | Connect(window: Option<Id>)
    | UrlReady(task: Id)
    | UrlFailed(task: Id)
    | Message(channel: Id)
    | Fire(timer: Id)
    | Answer(task: Id, status: Status)
    | UserCloses(popup: Id)

  function Start(broadcast: bool): Flow {
    Flow(Idle, None, false, false, None, None, None, None, broadcast, Browser(map[], {}, {}, map[], map[], 0, []))
  }

  // ----- the steps -----

  function Held(ref: Option<Id>): set<Id> {
    if ref.Some? then {ref.value} else {}
  }

  function Armed(s: Flow): set<Id> {
    Held(s.closeWatcher) + Held(s.backstop) + Held(s.timeout)
  }

  function Stopped(s: Flow): Flow {
    s.(closeWatcher := None, backstop := None, timeout := None, channel := None, popup := None, navigated := false,
       env := s.env.(timers := s.env.timers - Armed(s), channels := s.env.channels - Held(s.channel)))
  }

  function Logged(s: Flow, effect: Effect): Flow {
    s.(env := s.env.(log := s.env.log + [effect]))
  }

  /** settleSuccess, settleCancelled and settleTimeout. */
  function Settle(s: Flow, effect: Effect): Flow
    requires effect != Reset
  {
    if s.settled then s
    else Logged(Stopped(s).(settled := true, phase := if effect == Expired then TimedOut else Idle), effect)
  }

  function Ask(s: Flow, probe: Probe): Flow {
    s.(env := s.env.(probes := s.env.probes[s.env.next := probe], next := s.env.next + 1))
  }

  function ClosePopup(s: Flow, popup: Id): Flow {
    s.(env := s.env.(closed := s.env.closed + {popup}))
  }

  /** The reuse test of `connect`: the hook's own popup, navigated and still open. */
  predicate Reusable(s: Flow, popup: Id) {
    s.popup == Some(popup) && s.navigated && popup !in s.env.closed
  }

  function BeginAttempt(s: Flow, popup: Id): Flow {
    s.(popup := Some(popup), navigated := false, settled := false, phase := Opening,
       env := s.env.(log := s.env.log + [Reset], urls := s.env.urls[s.env.next := popup], next := s.env.next + 1))
  }

  function OnConnect(s: Flow, popup: Option<Id>): Flow {
    if s.phase == Opening || s.phase == Waiting then s
    else if popup.None? then s.(phase := Blocked)
    else if Reusable(s, popup.value) then s.(phase := Waiting)
    else BeginAttempt(s, popup.value)
  }

  /** The rest of `connect` once the url is there: navigate, and arm every watcher. */
  function ArmWatchers(s: Flow, popup: Id): Flow {
    var n := s.env.next;
    s.(navigated := true, phase := Waiting,
       channel := if s.broadcast then Some(n) else s.channel,
       backstop := Some(n + 1), closeWatcher := Some(n + 2), timeout := Some(n + 3),
       env := s.env.(channels := if s.broadcast then s.env.channels + {n} else s.env.channels,
                     timers := s.env.timers[n + 1 := Backstop][n + 2 := CloseWatch(popup)][n + 3 := Timeout(popup)],
                     next := n + 4))
  }

  function OnUrl(s: Flow, popup: Id): Flow {
    if popup in s.env.closed then s.(phase := Idle) else ArmWatchers(s, popup)
  }

  /** The close watcher's tick: nothing while the popup is open; afterwards the interval in
      `closeWatcherRef` stops and the backend is asked. */
  function OnCloseTick(s: Flow, popup: Id): Flow {
    if popup !in s.env.closed then s
    else
      var stopped := s.(closeWatcher := None, env := s.env.(timers := s.env.timers - Held(s.closeWatcher)));
      Ask(stopped, CloseCheck(false))
  }

  function OnFire(s: Flow, timer: Id): Flow
    requires timer in s.env.timers
  {
    match s.env.timers[timer]
    case Backstop => Ask(s, Check)
    case CloseWatch(popup) => OnCloseTick(s, popup)
    case Timeout(popup) =>
      ClosePopup(Settle(s.(env := s.env.(timers := s.env.timers - {timer})), Expired), popup)
  }

  function OnAnswer(s: Flow, probe: Probe, status: Status): Flow {
    if status == Connected then Settle(s, Succeeded)
    else if probe.Check? then s
    else if status == Unknown && !probe.retried then Ask(s, CloseCheck(true))
    else Settle(s, Cancelled)
  }

  predicate Enabled(s: Flow, e: Event) {
    match e
    case Connect(_) => true
    case UrlReady(task) => task in s.env.urls
    case UrlFailed(task) => task in s.env.urls
    case Message(channel) => channel in s.env.channels
    case Fire(timer) => timer in s.env.timers
    case Answer(task, _) => task in s.env.probes
    case UserCloses(_) => true
  }

  function Next(s: Flow, e: Event): Flow
    requires Enabled(s, e)
  {
    match e
    case Connect(popup) => OnConnect(s, popup)
    case UrlReady(task) => OnUrl(s.(env := s.env.(urls := s.env.urls - {task})), s.env.urls[task])
    case UrlFailed(task) =>
      ClosePopup(s.(phase := Idle, env := s.env.(urls := s.env.urls - {task})), s.env.urls[task])
    case Message(_) => if s.settled then s else Ask(s, Check)
    case Fire(timer) => OnFire(s, timer)
    case Answer(task, status) =>
      OnAnswer(s.(env := s.env.(probes := s.env.probes - {task})), s.env.probes[task], status)
    case UserCloses(popup) => ClosePopup(s, popup)
  }

  // ----- the hook -----

  class Hook {
    var phase: Phase
    var popupRef: Option<Id>
    var navigatedRef: bool
    var settledRef: bool
    var closeWatcherRef: Option<Id>
    var backstopPollRef: Option<Id>
    var timeoutRef: Option<Id>
    var channelRef: Option<Id>
    const broadcast: bool
    var env: Browser

    function View(): Flow
      reads this
    {
      Flow(phase, popupRef, navigatedRef, settledRef, closeWatcherRef, backstopPollRef, timeoutRef, channelRef,
           broadcast, env)
    }

    constructor (broadcast: bool)
      ensures View() == Start(broadcast)
    {
      phase, popupRef, navigatedRef, settledRef := Idle, None, false, false;
      closeWatcherRef, backstopPollRef, timeoutRef, channelRef := None, None, None, None;
      this.broadcast := broadcast;
      env := Browser(map[], {}, {}, map[], map[], 0, []);
    }

    method StopWatching()
      modifies this
      ensures View() == Stopped(old(View()))
    {
      env := env.(timers := env.timers - (Held(closeWatcherRef) + Held(backstopPollRef) + Held(timeoutRef)));
      closeWatcherRef, backstopPollRef, timeoutRef := None, None, None;
      env := env.(channels := env.channels - Held(channelRef));
      channelRef, popupRef, navigatedRef := None, None, false;
    }

    method SettleAs(effect: Effect)
      requires effect != Reset
      modifies this
      ensures View() == Settle(old(View()), effect)
    {
      if settledRef { return; }
      settledRef := true;
      StopWatching();
      phase := if effect == Expired then TimedOut else Idle;
      env := env.(log := env.log + [effect]);
    }

    method Connect(window: Option<Id>)
      modifies this
      ensures View() == OnConnect(old(View()), window)
    {
      if phase == Opening || phase == Waiting { return; }
      if window.None? {
        phase := Blocked;
        return;
      }
      var popup := window.value;
      if popupRef == Some(popup) && navigatedRef && popup !in env.closed {
        phase := Waiting;
        return;
      }
      popupRef, navigatedRef, settledRef, phase := Some(popup), false, false, Opening;
      env := env.(log := env.log + [Reset]);
      env := env.(urls := env.urls[env.next := popup], next := env.next + 1);
    }

    /** `connect` after its await: `ok` is false when the fetch threw. */
    method ConnectContinues(task: Id, ok: bool)
      requires task in env.urls
      modifies this
      ensures View() == Next(old(View()), if ok then UrlReady(task) else UrlFailed(task))
    {
      var popup := env.urls[task];
      env := env.(urls := env.urls - {task});
      if !ok {
        env := env.(closed := env.closed + {popup});
        phase := Idle;
        return;
      }
      if popup in env.closed {
        phase := Idle;
        return;
      }
      navigatedRef, phase := true, Waiting;
      var n := env.next;
      if broadcast {
        env := env.(channels := env.channels + {n});
        channelRef := Some(n);
      }
      env := env.(timers := env.timers[n + 1 := Backstop][n + 2 := CloseWatch(popup)][n + 3 := Timeout(popup)],
                  next := n + 4);
      backstopPollRef, closeWatcherRef, timeoutRef := Some(n + 1), Some(n + 2), Some(n + 3);
    }

    method OnMessage(channel: Id)
      requires channel in env.channels
      modifies this
      ensures View() == Next(old(View()), Message(channel))
    {
      if settledRef { return; }
      env := env.(probes := env.probes[env.next := Check], next := env.next + 1);
    }

    method OnTimer(timer: Id)
      requires timer in env.timers
      modifies this
      ensures View() == Next(old(View()), Fire(timer))
    {
      match env.timers[timer]
      case Backstop =>
        env := env.(probes := env.probes[env.next := Check], next := env.next + 1);
      case CloseWatch(popup) =>
        if popup !in env.closed { return; }
        env := env.(timers := env.timers - Held(closeWatcherRef));
        closeWatcherRef := None;
        env := env.(probes := env.probes[env.next := CloseCheck(false)], next := env.next + 1);
      case Timeout(popup) =>
        env := env.(timers := env.timers - {timer});
        SettleAs(Expired);
        env := env.(closed := env.closed + {popup});
    }

    method OnProbe(task: Id, status: Status)
      requires task in env.probes
      modifies this
      ensures View() == Next(old(View()), Answer(task, status))
    {
      var asked := env.probes[task];
      env := env.(probes := env.probes - {task});
      if status == Connected {
        SettleAs(Succeeded);
      } else if asked.CloseCheck? {
        if status == Unknown && !asked.retried {
          env := env.(probes := env.probes[env.next := CloseCheck(true)], next := env.next + 1);
        } else {
          SettleAs(Cancelled);
        }
      }
    }
  }

  // ----- runs -----

  ghost predicate IsRun(s: Flow, es: seq<Event>)
    decreases |es|
  {
    es == [] || (Enabled(s, es[0]) && IsRun(Next(s, es[0]), es[1..]))
  }

  ghost function Final(s: Flow, es: seq<Event>): Flow
    requires IsRun(s, es)
    decreases |es|
  {
    if es == [] then s else Final(Next(s, es[0]), es[1..])
  }

  // ----- settling once, in every run -----

  /** Between any two settlements the log holds a reset. */
  ghost predicate SettledOnce(log: seq<Effect>) {
    forall i, j | 0 <= i < j < |log| && log[i] != Reset && log[j] != Reset ::
      exists k | i < k < j :: log[k] == Reset
  }

  /** The flag says whether the log ends in a settlement. */
  ghost predicate FlagMatchesLog(s: Flow) {
    s.settled <==> s.env.log != [] && s.env.log[|s.env.log| - 1] != Reset
  }

  /** A step logs nothing and leaves the flag, or logs a reset and clears it, or logs one
      settlement and raises it. */
  lemma StepLogs(s: Flow, e: Event)
    requires Enabled(s, e)
    ensures var t := Next(s, e);
            || (t.env.log == s.env.log && t.settled == s.settled)
            || (t.env.log == s.env.log + [Reset] && !t.settled)
            || (!s.settled && t.settled && exists x ::
                  x != Reset && t.env.log == s.env.log + [x] && (x == Succeeded ==> e.Answer? && e.status == Connected))
  {
  }

  lemma LogExtended(log: seq<Effect>, x: Effect)
    requires SettledOnce(log) && (x == Reset || log == [] || log[|log| - 1] == Reset)
    ensures SettledOnce(log + [x])
  {
    var after := log + [x];
    forall i, j | 0 <= i < j < |after| && after[i] != Reset && after[j] != Reset
      ensures exists k | i < k < j :: after[k] == Reset
    {
      if j < |log| {
        var k :| i < k < j && log[k] == Reset;
        assert after[k] == Reset;
      } else {
        assert after[|log| - 1] == Reset;
      }
    }
  }

  lemma StepSettlesOnce(s: Flow, e: Event)
    requires Enabled(s, e) && SettledOnce(s.env.log) && FlagMatchesLog(s)
    ensures SettledOnce(Next(s, e).env.log) && FlagMatchesLog(Next(s, e))
  {
    hide Next, SettledOnce;
    StepLogs(s, e);
    var t := Next(s, e);
    if t.env.log != s.env.log {
      var x := t.env.log[|t.env.log| - 1];
      assert t.env.log == s.env.log + [x];
      LogExtended(s.env.log, x);
    }
  }

  /** In every run, stale probes included: between two resets at most one of success, cancel and
      timeout takes effect. */
  lemma {:induction false} SettlesOnce(s: Flow, es: seq<Event>)
    requires IsRun(s, es) && SettledOnce(s.env.log) && FlagMatchesLog(s)
    ensures SettledOnce(Final(s, es).env.log)
    decreases |es|
  {
    if es != [] {
      StepSettlesOnce(s, es[0]);
      SettlesOnce(Next(s, es[0]), es[1..]);
    }
  }

  function Successes(log: seq<Effect>): nat {
    if log == [] then 0 else Successes(log[..|log| - 1]) + if log[|log| - 1] == Succeeded then 1 else 0
  }

  function ConnectedAnswers(es: seq<Event>): nat {
    if es == [] then 0
    else (if es[0].Answer? && es[0].status == Connected then 1 else 0) + ConnectedAnswers(es[1..])
  }

  /** onConnected runs only on a probe that answered "connected", and at most once for each. */
  lemma {:induction false} SuccessNeedsConnected(s: Flow, es: seq<Event>)
    requires IsRun(s, es)
    ensures Successes(Final(s, es).env.log) <= Successes(s.env.log) + ConnectedAnswers(es)
    decreases |es|
  {
    if es != [] {
      hide Next;
      var t := Next(s, es[0]);
      StepLogs(s, es[0]);
      if t.env.log != s.env.log { assert t.env.log[..|t.env.log| - 1] == s.env.log; }
      SuccessNeedsConnected(t, es[1..]);
    }
  }

  // ----- orderly states -----

  /** The refs hold exactly the live timers and channels, each of its own kind. */
  ghost predicate RefsAreExact(s: Flow) {
    && s.env.timers.Keys == Armed(s)
    && s.env.channels == Held(s.channel)
    && (s.closeWatcher.Some? ==> s.env.timers[s.closeWatcher.value].CloseWatch?)
    && (s.backstop.Some? ==> s.env.timers[s.backstop.value] == Backstop)
    && (s.timeout.Some? ==> s.env.timers[s.timeout.value].Timeout?)
    && (forall t | t in s.env.urls :: t < s.env.next)
  }

  /** No timer, no channel, not navigated. */
  predicate Quiet(s: Flow) {
    !s.navigated && s.closeWatcher.None? && s.backstop.None? && s.timeout.None? && s.channel.None?
  }

  /** Waiting means navigated, unsettled, and with timeout and backstop armed; every other phase
      is quiet; and only Opening awaits an auth url: one, for its own popup, not settled. */
  ghost predicate Orderly(s: Flow) {
    && RefsAreExact(s)
    && match s.phase
       case Waiting =>
         && s.navigated && !s.settled && s.popup.Some? && s.timeout.Some? && s.backstop.Some?
         && (s.broadcast ==> s.channel.Some?) && s.env.urls == map[]
       case Opening =>
         && Quiet(s) && !s.settled && s.popup.Some?
         && exists t :: s.env.urls == map[t := s.popup.value]
       case _ => Quiet(s) && s.env.urls == map[]
  }

  /** The step is a probe's answer that settles an attempt still waiting for its url. */
  predicate SettlesTooEarly(s: Flow, e: Event) {
    && s.phase == Opening && !s.settled && e.Answer? && e.task in s.env.probes
    && (e.status == Connected ||
        (s.env.probes[e.task].CloseCheck? && (e.status == NotConnected || s.env.probes[e.task].retried)))
  }

  lemma ConnectStaysOrderly(s: Flow, window: Option<Id>)
    requires Orderly(s)
    ensures Orderly(Next(s, Connect(window)))
    ensures s.phase != Opening && s.phase != Waiting && window.Some? ==> !Reusable(s, window.value)
  {
    if s.phase != Opening && s.phase != Waiting && window.Some? {
      var t := BeginAttempt(s, window.value);
      assert t.env.urls == map[s.env.next := t.popup.value];
    }
  }

  lemma UrlStaysOrderly(s: Flow, task: Id, ok: bool)
    requires Orderly(s) && Enabled(s, UrlReady(task))
    ensures Orderly(Next(s, if ok then UrlReady(task) else UrlFailed(task)))
  {
    var t := Next(s, if ok then UrlReady(task) else UrlFailed(task));
    assert t.env.urls == map[];
    if t.phase == Waiting {
      var n := s.env.next;
      assert Armed(t) == {n + 1, n + 2, n + 3};
    }
  }

  lemma SettleStaysOrderly(s: Flow, effect: Effect)
    requires Orderly(s) && effect != Reset && s.phase != Opening
    ensures Orderly(Settle(s, effect))
  {
    if !s.settled {
      var t := Settle(s, effect);
      assert t.env.timers.Keys == {} && t.env.channels == {};
    }
  }

  lemma FireStaysOrderly(s: Flow, timer: Id)
    requires Orderly(s) && Enabled(s, Fire(timer))
    ensures Orderly(Next(s, Fire(timer)))
    ensures s.phase == Waiting && s.timeout == Some(timer) ==> Next(s, Fire(timer)).phase == TimedOut
  {
    assert s.phase == Waiting;
    var t := Next(s, Fire(timer));
    if s.env.timers[timer].Timeout? {
      assert t.env.timers.Keys == {} && t.env.channels == {};
    } else {
      assert t.env.timers.Keys == Armed(t);
    }
  }

  lemma AnswerStaysOrderly(s: Flow, task: Id, status: Status)
    requires Orderly(s) && Enabled(s, Answer(task, status))
    ensures Orderly(Next(s, Answer(task, status))) <==> !SettlesTooEarly(s, Answer(task, status))
  {
    var u := s.(env := s.env.(probes := s.env.probes - {task}));
    assert Orderly(u);
    if s.phase != Opening {
      SettleStaysOrderly(u, Succeeded);
      SettleStaysOrderly(u, Cancelled);
    } else if SettlesTooEarly(s, Answer(task, status)) {
      var id :| s.env.urls == map[id := s.popup.value];
      assert id in Next(s, Answer(task, status)).env.urls;
    }
  }

  /** From an orderly state, every step but one keeps the flow orderly: the exception is exactly
      a probe settling an attempt before its url has arrived. */
  lemma StaysOrderlyIff(s: Flow, e: Event)
    requires Orderly(s) && Enabled(s, e)
    ensures Orderly(Next(s, e)) <==> !SettlesTooEarly(s, e)
  {
    match e
    case Connect(window) => ConnectStaysOrderly(s, window);
    case UrlReady(task) => UrlStaysOrderly(s, task, true);
    case UrlFailed(task) => UrlStaysOrderly(s, task, false);
    case Message(channel) => assert s.phase == Waiting;
    case Fire(timer) => FireStaysOrderly(s, timer);
    case Answer(task, status) => AnswerStaysOrderly(s, task, status);
    case UserCloses(_) =>
  }

  /** No step of the run settles too early. */
  ghost predicate NeverTooEarly(s: Flow, es: seq<Event>)
    requires IsRun(s, es)
    decreases |es|
  {
    es == [] || (!SettlesTooEarly(s, es[0]) && NeverTooEarly(Next(s, es[0]), es[1..]))
  }

  /** Every state the run passes through is orderly. */
  ghost predicate OrderlyThroughout(s: Flow, es: seq<Event>)
    requires IsRun(s, es)
    decreases |es|
  {
    Orderly(s) && (es == [] || OrderlyThroughout(Next(s, es[0]), es[1..]))
  }

  /** The phases mean what they say in all of a run exactly when no step settles too early. */
  lemma {:induction false} OrderlyIffNeverTooEarly(s: Flow, es: seq<Event>)
    requires IsRun(s, es) && Orderly(s)
    ensures OrderlyThroughout(s, es) <==> NeverTooEarly(s, es)
    decreases |es|
  {
    if es != [] {
      hide Next, SettlesTooEarly, Orderly;
      StaysOrderlyIff(s, es[0]);
      if Orderly(Next(s, es[0])) {
        OrderlyIffNeverTooEarly(Next(s, es[0]), es[1..]);
      }
    }
  }

  // ----- runs in which no probe outlives its attempt -----

  /** An attempt begins only when no probe of an earlier one is pending. */
  predicate CalmStep(s: Flow, e: Event) {
    e.Connect? && e.window.Some? && s.phase != Opening && s.phase != Waiting ==> s.env.probes == map[]
  }

  ghost predicate CalmRun(s: Flow, es: seq<Event>)
    requires IsRun(s, es)
    decreases |es|
  {
    es == [] || (CalmStep(s, es[0]) && CalmRun(Next(s, es[0]), es[1..]))
  }

  lemma CalmKeepsOrder(s: Flow, e: Event)
    requires Orderly(s) && (s.phase == Opening ==> s.env.probes == map[])
    requires Enabled(s, e) && CalmStep(s, e)
    ensures var t := Next(s, e); Orderly(t) && (t.phase == Opening ==> t.env.probes == map[])
  {
    StaysOrderlyIff(s, e);
  }

  /** In every such run: waiting implies navigated, unsettled, timeout and backstop armed; every
      other phase implies no timer, no channel, not navigated. */
  lemma {:induction false} CalmRunIsOrderly(s: Flow, es: seq<Event>)
    requires IsRun(s, es) && CalmRun(s, es)
    requires Orderly(s) && (s.phase == Opening ==> s.env.probes == map[])
    ensures Orderly(Final(s, es))
    decreases |es|
  {
    if es != [] {
      hide Next, Orderly, CalmStep;
      CalmKeepsOrder(s, es[0]);
      CalmRunIsOrderly(Next(s, es[0]), es[1..]);
    }
  }

  /** Hence, from the start: the reuse branch of `connect` is never taken, watchers are armed only
      over empty refs, and `waiting` always has a step that leaves it. */
  lemma CalmRunNeverHangs(broadcast: bool, es: seq<Event>, window: Id)
    requires IsRun(Start(broadcast), es) && CalmRun(Start(broadcast), es)
    ensures var s := Final(Start(broadcast), es);
            && (s.phase != Opening && s.phase != Waiting ==> !Reusable(s, window))
            && (forall t | t in s.env.urls :: Quiet(s) && s.env.timers == map[] && s.env.channels == {})
            && (s.phase == Waiting ==>
                  s.timeout.Some? && Enabled(s, Fire(s.timeout.value))
                    && Next(s, Fire(s.timeout.value)).phase == TimedOut)
  {
    var s := Final(Start(broadcast), es);
    assert Start(broadcast).env.timers.Keys == {};
    CalmRunIsOrderly(Start(broadcast), es);
    ConnectStaysOrderly(s, Some(window));
    if s.phase == Waiting { FireStaysOrderly(s, s.timeout.value); }
    if s.phase == Opening { assert s.env.timers.Keys == {}; }
  }

  // ----- what a stale probe does -----

  /** Waiting, but already settled: nothing will settle it. */
  predicate Stuck(s: Flow) {
    s.phase == Waiting && s.settled && s.env.urls == map[]
  }

  /** A stuck flow stays stuck in every continuation, and nothing takes effect any more. */
  lemma {:induction false} StuckForever(s: Flow, es: seq<Event>)
    requires Stuck(s) && IsRun(s, es)
    ensures Stuck(Final(s, es)) && Final(s, es).env.log == s.env.log
    decreases |es|
  {
    if es != [] { StuckForever(Next(s, es[0]), es[1..]); }
  }

  /** One early settlement is enough: the url then arrives into a settled attempt. */
  lemma EarlySettlementSticks(s: Flow, e: Event, url: Id)
    requires Orderly(s) && SettlesTooEarly(s, e) && url in s.env.urls && s.popup.value !in s.env.closed
    ensures Enabled(s, e) && Enabled(Next(s, e), UrlReady(url)) && Stuck(Next(Next(s, e), UrlReady(url)))
  {
    var t := Next(s, e);
    assert t.env.urls == s.env.urls && t.env.closed == s.env.closed;
    assert t.env.urls - {url} == map[];
  }

  /** The state after a first attempt has timed out with its backstop's probe unanswered and the
      user has connected again. */
  const SECOND_ATTEMPT :=
    Flow(Opening, Some(2), false, false, None, None, None, None, false,
         Browser(map[], {}, {1}, map[6 := 2], map[5 := Check], 7, [Reset, Expired, Reset]))

  const FIRST_ATTEMPT :=
    Flow(Waiting, Some(1), true, false, Some(3), Some(2), Some(4), None, false,
         Browser(map[2 := Backstop, 3 := CloseWatch(1), 4 := Timeout(1)], {}, {}, map[], map[], 5, [Reset]))

  lemma FirstAttempt()
    ensures IsRun(Start(false), [Connect(Some(1)), UrlReady(0)])
    ensures Final(Start(false), [Connect(Some(1)), UrlReady(0)]) == FIRST_ATTEMPT
  {
    var s := Next(Start(false), Connect(Some(1)));
    assert s.env.urls == map[0 := 1];
    var t := Next(s, UrlReady(0));
    assert t.env.timers == FIRST_ATTEMPT.env.timers && t.env.urls == map[];
    RunSteps(s, [UrlReady(0)], t, []);
    RunSteps(Start(false), [Connect(Some(1)), UrlReady(0)], s, [UrlReady(0)]);
  }

  lemma SecondAttempt()
    ensures IsRun(FIRST_ATTEMPT, [Fire(2), Fire(4), Connect(Some(2))])
    ensures Final(FIRST_ATTEMPT, [Fire(2), Fire(4), Connect(Some(2))]) == SECOND_ATTEMPT
  {
    var s := Next(FIRST_ATTEMPT, Fire(2));
    assert s.env.probes == map[5 := Check];
    var t := Next(s, Fire(4));
    assert t.env.timers == map[] && t.env.closed == {1} && t.env.channels == {};
    var u := Next(t, Connect(Some(2)));
    assert u.env.urls == map[6 := 2] && u == SECOND_ATTEMPT;
    RunSteps(t, [Connect(Some(2))], u, []);
    RunSteps(s, [Fire(4), Connect(Some(2))], t, [Connect(Some(2))]);
    RunSteps(FIRST_ATTEMPT, [Fire(2), Fire(4), Connect(Some(2))], s, [Fire(4), Connect(Some(2))]);
  }

  lemma SecondAttemptHangs()
    ensures IsRun(SECOND_ATTEMPT, [Answer(5, Connected), UrlReady(6)])
    ensures Stuck(Final(SECOND_ATTEMPT, [Answer(5, Connected), UrlReady(6)]))
  {
    var s := Next(SECOND_ATTEMPT, Answer(5, Connected));
    var t := Next(s, UrlReady(6));
    assert s.settled && t.env.urls == map[] && Stuck(t);
    RunSteps(s, [UrlReady(6)], t, []);
    RunSteps(SECOND_ATTEMPT, [Answer(5, Connected), UrlReady(6)], s, [UrlReady(6)]);
  }

  lemma RunSteps(s: Flow, es: seq<Event>, t: Flow, rest: seq<Event>)
    requires es != [] && Enabled(s, es[0]) && t == Next(s, es[0]) && rest == es[1..] && IsRun(t, rest)
    ensures IsRun(s, es) && Final(s, es) == Final(t, rest)
  {
  }

  lemma {:induction false} RunsCompose(s: Flow, es: seq<Event>, more: seq<Event>)
    requires IsRun(s, es) && IsRun(Final(s, es), more)
    ensures IsRun(s, es + more) && Final(s, es + more) == Final(Final(s, es), more)
    decreases |es|
  {
    hide Next, Enabled;
    if es == [] {
      assert es + more == more;
    } else {
      RunsCompose(Next(s, es[0]), es[1..], more);
      assert (es + more)[1..] == es[1..] + more;
    }
  }

  /** It does happen: the backstop asks, the attempt times out, the user connects again, and the
      old probe answers "connected" before the new url is there. */
  lemma StaleProbeHangs()
    ensures exists es :: IsRun(Start(false), es) && Stuck(Final(Start(false), es))
  {
    hide IsRun, Final, Stuck;
    var first, second := [Connect(Some(1)), UrlReady(0)], [Fire(2), Fire(4), Connect(Some(2))];
    var third := [Answer(5, Connected), UrlReady(6)];
    FirstAttempt();
    SecondAttempt();
    SecondAttemptHangs();
    RunsCompose(Start(false), first, second);
    RunsCompose(Start(false), first + second, third);
    assert IsRun(Start(false), first + second + third);
  }
}
