/** Tesbo-Frontend/lib/useIntegrationOAuthConnect.ts: which effect every callback has, told from the
    state it finds, and how often each effect takes place in a run. */
module OAuthEffects {
  import opened Options
  import opened OAuthFlow

  // ----- one callback -----

  /** Settling stops every watcher and forgets the popup. */
  predicate Released(before: Flow, after: Flow) {
    && after.popup.None? && !after.navigated && after.closeWatcher.None? && after.backstop.None?
    && after.timeout.None? && after.channel.None?
    && (forall t | t in after.env.timers ::
          && t in before.env.timers && before.closeWatcher != Some(t) && before.backstop != Some(t)
          && before.timeout != Some(t))
    && (forall c | c in after.env.channels :: c in before.env.channels && before.channel != Some(c))
  }

  /** Nothing that a user could notice. */
  predicate Unnoticed(before: Flow, after: Flow) {
    && after.env.log == before.env.log && after.phase == before.phase && after.settled == before.settled
    && after.popup == before.popup && after.env.timers == before.env.timers && after.env.closed == before.env.closed
  }

  /** A connected answer to an attempt that is not settled succeeds, whatever asked for it; any other
      answer to an ordinary probe does nothing; after the popup was closed, a first unknown answer is
      asked for once more, and any other one cancels. */
  lemma AnswerDoes(s: Flow, task: Id, status: Status)
    requires task in s.env.probes
    ensures var t, probe := Next(s, Answer(task, status)), s.env.probes[task];
      && (status == Connected && !s.settled ==>
            t.env.log == s.env.log + [Succeeded] && t.phase == Idle && t.settled && Released(s, t))
      && (status == Connected && s.settled ==> Unnoticed(s, t))
      && (status != Connected && probe == Check ==> Unnoticed(s, t) && t.env.probes == s.env.probes - {task})
      && (status == Unknown && probe == CloseCheck(false) ==>
            Unnoticed(s, t) && t.env.probes == (s.env.probes - {task})[s.env.next := CloseCheck(true)])
      && ((probe == CloseCheck(true) && status == Unknown) || (probe.CloseCheck? && status == NotConnected) ==>
            if s.settled then Unnoticed(s, t)
            else t.env.log == s.env.log + [Cancelled] && t.phase == Idle && t.settled && Released(s, t))
  {
  }

  /** The timeout gives up on an attempt that is not settled and closes its popup either way. */
  lemma TimeoutDoes(s: Flow, timer: Id, popup: Id)
    requires timer in s.env.timers && s.env.timers[timer] == Timeout(popup)
    ensures var t := Next(s, Fire(timer));
      && popup in t.env.closed && timer !in t.env.timers
      && if s.settled then t.env.log == s.env.log && t.phase == s.phase
         else t.env.log == s.env.log + [Expired] && t.phase == TimedOut && t.settled && Released(s, t)
  {
  }

  /** The backstop asks at every tick; the close watcher stops and asks once its popup is closed; a
      broadcast asks unless the attempt is settled. */
  lemma WatchersAsk(s: Flow, timer: Id, popup: Id, channel: Id)
    requires timer in s.env.timers && channel in s.env.channels
    ensures s.env.timers[timer] == Backstop ==>
      Unnoticed(s, Next(s, Fire(timer))) && Next(s, Fire(timer)).env.probes == s.env.probes[s.env.next := Check]
    ensures s.env.timers[timer] == CloseWatch(popup) && popup !in s.env.closed ==> Next(s, Fire(timer)) == s
    ensures s.env.timers[timer] == CloseWatch(popup) && popup in s.env.closed ==>
      var t := Next(s, Fire(timer));
      && t.env.probes == s.env.probes[s.env.next := CloseCheck(false)] && t.closeWatcher.None?
      && (s.closeWatcher == Some(timer) ==> timer !in t.env.timers)
      && t.env.log == s.env.log && t.phase == s.phase && t.settled == s.settled
    ensures var t := Next(s, Message(channel));
      if s.settled then t == s
      else Unnoticed(s, t) && t.env.probes == s.env.probes[s.env.next := Check]
  {
  }

  lemma ClosingIsNoticedLater(s: Flow, popup: Id)
    ensures Next(s, UserCloses(popup)) == s.(env := s.env.(closed := s.env.closed + {popup}))
  {
  }

  /** Connecting starts an attempt for the window it opened, unless one is under way, no window
      opened, or the window is the hook's own, navigated and still open. */
  lemma ConnectDoes(s: Flow, popup: Id)
    ensures s.phase == Opening || s.phase == Waiting ==>
      Next(s, Connect(Some(popup))) == s && Next(s, Connect(None)) == s
    ensures s.phase != Opening && s.phase != Waiting ==>
      var blocked, t := Next(s, Connect(None)), Next(s, Connect(Some(popup)));
      && blocked.phase == Blocked && blocked.env == s.env
      && if s.popup == Some(popup) && s.navigated && popup !in s.env.closed
         then t.phase == Waiting && t.env == s.env && t.popup == s.popup
         else && t.phase == Opening && t.popup == Some(popup) && !t.navigated && !t.settled
              && t.env.log == s.env.log + [Reset] && t.env.urls == s.env.urls[s.env.next := popup]
  {
  }

  /** With the url there and the popup open, the attempt waits: backstop, close watcher and timeout
      are armed for this popup, and a channel where the browser has them. Otherwise it ends, and a
      popup whose url could not be had is closed. */
  lemma UrlDoes(s: Flow, task: Id)
    requires task in s.env.urls
    ensures var popup, t := s.env.urls[task], Next(s, UrlReady(task));
      && t.env.log == s.env.log && t.settled == s.settled && t.env.urls == s.env.urls - {task}
      && if popup in s.env.closed then t.phase == Idle && t.env.timers == s.env.timers
         else && t.phase == Waiting && t.navigated
              && t.backstop.Some? && t.backstop.value in t.env.timers && t.env.timers[t.backstop.value] == Backstop
              && t.closeWatcher.Some? && t.closeWatcher.value in t.env.timers
              && t.env.timers[t.closeWatcher.value] == CloseWatch(popup)
              && t.timeout.Some? && t.timeout.value in t.env.timers && t.env.timers[t.timeout.value] == Timeout(popup)
              && (s.broadcast ==> t.channel.Some? && t.channel.value in t.env.channels)
    ensures var t := Next(s, UrlFailed(task));
      && t.phase == Idle && s.env.urls[task] in t.env.closed && t.env.timers == s.env.timers
      && t.env.log == s.env.log && t.settled == s.settled && t.env.urls == s.env.urls - {task}
  {
  }

  // ----- whole runs -----

  /** The effect that an event brings about, told from the state it finds. */
  function Brings(s: Flow, e: Event): Option<Effect>
    requires Enabled(s, e)
  {
    match e
    case Connect(window) =>
      if window.None? || s.phase == Opening || s.phase == Waiting then None
      else if s.popup == window && s.navigated && window.value !in s.env.closed then None
      else Some(Reset)
    case Answer(task, status) =>
      var probe := s.env.probes[task];
      if s.settled then None
      else if status == Connected then Some(Succeeded)
      else if probe == Check || (probe == CloseCheck(false) && status == Unknown) then None
      else Some(Cancelled)
    case Fire(timer) => if s.env.timers[timer].Timeout? && !s.settled then Some(Expired) else None
    case _ => None
  }

  lemma StepBrings(s: Flow, e: Event)
    requires Enabled(s, e)
    ensures Next(s, e).env.log == if Brings(s, e).Some? then s.env.log + [Brings(s, e).value] else s.env.log
  {
  }

  function Count(log: seq<Effect>, effect: Effect): nat {
    if log == [] then 0 else Count(log[..|log| - 1], effect) + if log[|log| - 1] == effect then 1 else 0
  }

  lemma CountLast(log: seq<Effect>, x: Effect, effect: Effect)
    ensures Count(log + [x], effect) == Count(log, effect) + if x == effect then 1 else 0
  {
    assert (log + [x])[..|log|] == log;
  }

  ghost function Brought(s: Flow, es: seq<Event>, effect: Effect): nat
    requires IsRun(s, es)
    decreases |es|
  {
    if es == [] then 0
    else (if Brings(s, es[0]) == Some(effect) then 1 else 0) + Brought(Next(s, es[0]), es[1..], effect)
  }

  /** In every run: onConnected runs exactly as often as a connected answer finds an attempt unsettled,
      an attempt is cancelled exactly as often as the last answer after a closed popup finds it so, and
      it times out exactly as often as its timer does. */
  lemma {:induction false} EffectsAreBrought(s: Flow, es: seq<Event>, effect: Effect)
    requires IsRun(s, es)
    ensures Count(Final(s, es).env.log, effect) == Count(s.env.log, effect) + Brought(s, es, effect)
    decreases |es|
  {
    if es != [] {
      hide Next, Brings, Enabled, Count;
      StepBrings(s, es[0]);
      if Brings(s, es[0]).Some? { CountLast(s.env.log, Brings(s, es[0]).value, effect); }
      EffectsAreBrought(Next(s, es[0]), es[1..], effect);
    }
  }
}
