/** The shared browser of puppeteer-process-manager.service.ts. getBrowser and restartBrowser are
    split at their awaits; callers, promise continuations and browser crashes interleave freely. */
module BrowserManager {
  import opened Wrappers

  /** The promise of one restart: still in restartBrowser, or settled. */
  datatype Restart =
    | Closing                       // awaiting close() of the disconnected browser
    | Launching                     // awaiting puppeteer.launch()
    | StoringPid                    // awaiting the PID file
    | Resolved(browser: nat)
    | Rejected

  predicate Settled(r: Restart) {
    r.Resolved? || r.Rejected?
  }

  datatype Caller =
    | Initiator(restart: nat)       // awaiting the restart it started; holds the mutex
    | Joined(restart: nat)          // returned the promise of someone else's restart
    | GotFast(browser: nat)
    | Got(restart: nat, browser: nat)
    | Failed(restart: nat)

  /** `browser` and `mutex` are the manager's fields; browsers are numbered in launch order.
      `connected`, `launchedBy` and `disconnects` describe the world outside. */
  datatype Sys = Sys(
    browser: Option<nat>,
    mutex: Option<nat>,
    restarts: seq<Restart>,
    callers: map<nat, Caller>,
    connected: set<nat>,
    launchedBy: seq<Option<nat>>,   // the restart that launched it; None for the one onModuleInit launched
    disconnects: nat)

  datatype Step =
    | Call(c: nat)
    | CloseSettles(r: nat)
    | LaunchSucceeds(r: nat, pidKnown: bool)
    | LaunchFails(r: nat)
    | PidStored(r: nat)             // also when writing the file failed: that error is swallowed
    | Resume(c: nat)
    | Disconnect(b: nat)

  /** After onModuleInit, which launches a browser or logs the failure and carries on. */
  function Init(launched: bool): Sys {
    if launched then Sys(Some(0), None, [], map[], {0}, [None], 0) else Sys(None, None, [], map[], {}, [], 0)
  }

  predicate Healthy(s: Sys) {
    s.browser.Some? && s.browser.value in s.connected
  }

  predicate InPhase(s: Sys, r: nat, phase: Restart) {
    r < |s.restarts| && s.restarts[r] == phase
  }

  /** A step that is not enabled leaves the state alone. */
  function Next(s: Sys, step: Step): Sys {
    match step
    case Call(c) =>
      if c in s.callers then s
      else if Healthy(s) then s.(callers := s.callers[c := GotFast(s.browser.value)])
      else if s.mutex.Some? then s.(callers := s.callers[c := Joined(s.mutex.value)])
      else
        var r := |s.restarts|;
        s.(restarts := s.restarts + [if s.browser.Some? then Closing else Launching],
           mutex := Some(r), callers := s.callers[c := Initiator(r)])
    case CloseSettles(r) =>
      if InPhase(s, r, Closing) then s.(browser := None, restarts := s.restarts[r := Launching]) else s
    case LaunchSucceeds(r, pidKnown) =>
      if InPhase(s, r, Launching) then
        var b := |s.launchedBy|;
        s.(browser := Some(b), connected := s.connected + {b}, launchedBy := s.launchedBy + [Some(r)],
           restarts := s.restarts[r := if pidKnown then StoringPid else Resolved(b)])
      else s
    case LaunchFails(r) =>
      if InPhase(s, r, Launching) then s.(browser := None, restarts := s.restarts[r := Rejected]) else s
    case PidStored(r) =>
      if InPhase(s, r, StoringPid) && s.browser.Some?
      then s.(restarts := s.restarts[r := Resolved(s.browser.value)]) else s
    case Resume(c) =>
      if c !in s.callers || !(s.callers[c].Initiator? || s.callers[c].Joined?) then s
      else
        var r := s.callers[c].restart;
        if r >= |s.restarts| || !Settled(s.restarts[r]) then s
        else
          s.(callers := s.callers[c := if s.restarts[r].Resolved? then Got(r, s.restarts[r].browser) else Failed(r)],
             mutex := if s.callers[c].Initiator? then None else s.mutex)
    case Disconnect(b) =>
      if b in s.connected then s.(connected := s.connected - {b}, disconnects := s.disconnects + 1) else s
  }

  function Run(s: Sys, steps: seq<Step>): Sys
    decreases |steps|
  {
    if steps == [] then s else Run(Next(s, steps[0]), steps[1..])
  }

  // ---- The invariant. ----

  /** The mutex is set exactly while its initiator is inside, and only the newest restart can be running. */
  ghost predicate MutexOk(s: Sys) {
    MutexHeld(s) && MutexNewest(s)
  }

  ghost predicate MutexHeld(s: Sys) {
    s.mutex.Some? <==> exists c :: c in s.callers && s.callers[c].Initiator?
  }

  ghost predicate MutexNewest(s: Sys) {
    && (s.mutex.Some? ==> s.mutex.value == |s.restarts| - 1)
    && (forall c | c in s.callers && s.callers[c].Initiator? :: s.mutex == Some(s.callers[c].restart))
    && (forall c, d | c in s.callers && d in s.callers && s.callers[c].Initiator? && s.callers[d].Initiator? :: c == d)
    && (forall r | 0 <= r < |s.restarts| && !Settled(s.restarts[r]) :: s.mutex == Some(r))
  }

  ghost predicate CallersOk(s: Sys) {
    forall c | c in s.callers :: CallerOk(s, s.callers[c])
  }

  ghost predicate CallerOk(s: Sys, caller: Caller) {
    match caller
    case Joined(r) => r < |s.restarts|
    case Got(r, b) => r < |s.restarts| && s.restarts[r] == Resolved(b)
    case GotFast(b) => b < |s.launchedBy|
    case Failed(r) => r < |s.restarts| && s.restarts[r] == Rejected
    case Initiator(_) => true
  }

  /** Only the browser in the field can be connected, and none is while a restart closes or launches. */
  ghost predicate BrowsersOk(s: Sys) {
    ConnectedOk(s) && RestartingOk(s)
  }

  ghost predicate ConnectedOk(s: Sys) {
    && (s.browser.Some? ==> s.browser.value == |s.launchedBy| - 1)
    && (forall b | b in s.connected :: s.browser == Some(b))
    && |s.launchedBy| == |s.connected| + s.disconnects
  }

  ghost predicate RestartingOk(s: Sys) {
    && (forall r | 0 <= r < |s.restarts| && (s.restarts[r].Closing? || s.restarts[r].Launching?) :: s.connected == {})
    && (forall r | 0 <= r < |s.restarts| && s.restarts[r].Closing? :: s.browser.Some?)
  }

  /** Restart r has launched its browser. */
  predicate HasLaunched(r: Restart) {
    r.StoringPid? || r.Resolved?
  }

  /** Every restart that has launched did so once, and the browser it holds or resolves to is its own. */
  ghost predicate LaunchersOk(s: Sys) {
    forall b | 0 <= b < |s.launchedBy| && s.launchedBy[b].Some? ::
      s.launchedBy[b].value < |s.restarts| && HasLaunched(s.restarts[s.launchedBy[b].value])
  }

  ghost predicate LaunchedOnce(s: Sys) {
    forall a, b | 0 <= a < b < |s.launchedBy| && s.launchedBy[a].Some? :: s.launchedBy[a] != s.launchedBy[b]
  }

  ghost predicate OwnBrowser(s: Sys, r: nat)
    requires r < |s.restarts|
  {
    match s.restarts[r]
    case Resolved(b) => b < |s.launchedBy| && s.launchedBy[b] == Some(r)
    case StoringPid => s.browser.Some? && s.browser.value < |s.launchedBy| && s.launchedBy[s.browser.value] == Some(r)
    case _ => true
  }

  ghost predicate LaunchesOk(s: Sys) {
    LaunchersOk(s) && LaunchedOnce(s) && forall r | 0 <= r < |s.restarts| :: OwnBrowser(s, r)
  }

  ghost predicate Inv(s: Sys) {
    MutexOk(s) && CallersOk(s) && BrowsersOk(s) && LaunchesOk(s)
  }

  lemma NextMutexHeld(s: Sys, step: Step)
    requires Inv(s)
    ensures MutexHeld(Next(s, step))
  {
    var s' := Next(s, step);
    if s' != s && step.Call? {
      assert step.c in s'.callers;
      if s.mutex.Some? {
        var c :| c in s.callers && s.callers[c].Initiator?;
        assert s'.callers[c] == s.callers[c];
      }
    }
    if s' != s && step.Resume? && s.callers[step.c].Joined? && s.mutex.Some? {
      var c :| c in s.callers && s.callers[c].Initiator?;
      assert s'.callers[c] == s.callers[c];
    }
  }

  lemma NextMutexNewest(s: Sys, step: Step)
    requires Inv(s)
    ensures MutexNewest(Next(s, step))
  {
  }

  lemma NextMutexOk(s: Sys, step: Step)
    requires Inv(s)
    ensures MutexOk(Next(s, step))
  {
    NextMutexHeld(s, step);
    NextMutexNewest(s, step);
  }

  /** Restarts and browsers are only added, and a settled restart keeps its outcome. */
  lemma OutcomesStay(s: Sys, step: Step)
    ensures |s.restarts| <= |Next(s, step).restarts| && |s.launchedBy| <= |Next(s, step).launchedBy|
    ensures forall r | 0 <= r < |s.restarts| && Settled(s.restarts[r]) :: Next(s, step).restarts[r] == s.restarts[r]
  {
  }

  lemma NewCallerOk(s: Sys, step: Step, c: nat)
    requires Inv(s) && c in Next(s, step).callers
    requires !(c in s.callers && Next(s, step).callers[c] == s.callers[c])
    ensures CallerOk(Next(s, step), Next(s, step).callers[c])
  {
  }

  lemma NextCallersOk(s: Sys, step: Step)
    requires Inv(s)
    ensures CallersOk(Next(s, step))
  {
    var s' := Next(s, step);
    OutcomesStay(s, step);
    forall c | c in s'.callers ensures CallerOk(s', s'.callers[c]) {
      if c in s.callers {
        assert CallerOk(s, s.callers[c]);
      }
      if !(c in s.callers && s'.callers[c] == s.callers[c]) {
        NewCallerOk(s, step, c);
      }
    }
  }

  lemma NextConnectedOk(s: Sys, step: Step)
    requires BrowsersOk(s)
    ensures ConnectedOk(Next(s, step))
  {
    if step.LaunchSucceeds? && Next(s, step) != s {
      LaunchedAlone(s, step.r, step.pidKnown);
    } else if step.Disconnect? && step.b in s.connected {
      assert |s.connected - {step.b}| == |s.connected| - 1;
    }
  }

  lemma LaunchedAlone(s: Sys, r: nat, pidKnown: bool)
    requires BrowsersOk(s) && InPhase(s, r, Launching)
    ensures ConnectedOk(Next(s, LaunchSucceeds(r, pidKnown)))
  {
    assert s.connected == {} && s.connected + {|s.launchedBy|} == {|s.launchedBy|};
  }

  lemma NextRestartingOk(s: Sys, step: Step)
    requires Inv(s)
    ensures RestartingOk(Next(s, step))
  {
  }

  lemma NextBrowsersOk(s: Sys, step: Step)
    requires Inv(s)
    ensures BrowsersOk(Next(s, step))
  {
    NextConnectedOk(s, step);
    NextRestartingOk(s, step);
  }

  lemma NextLaunchersOk(s: Sys, step: Step)
    requires Inv(s)
    ensures LaunchersOk(Next(s, step))
  {
  }

  lemma NextLaunchedOnce(s: Sys, step: Step)
    requires Inv(s)
    ensures LaunchedOnce(Next(s, step))
  {
    if step.LaunchSucceeds? && Next(s, step) != s {
      forall a | 0 <= a < |s.launchedBy| && s.launchedBy[a].Some? ensures s.launchedBy[a] != Some(step.r) {
        assert HasLaunched(s.restarts[s.launchedBy[a].value]);
      }
    }
  }

  lemma LaunchedOwnBrowser(s: Sys, step: Step, r: nat)
    requires Inv(s) && r < |Next(s, step).restarts| && step.LaunchSucceeds?
    ensures OwnBrowser(Next(s, step), r)
  {
    assert r < |s.restarts| && OwnBrowser(s, r);
  }

  lemma KeptOwnBrowser(s: Sys, step: Step, r: nat)
    requires Inv(s) && r < |Next(s, step).restarts| && !step.LaunchSucceeds?
    ensures OwnBrowser(Next(s, step), r)
  {
    if r < |s.restarts| {
      assert OwnBrowser(s, r);
    }
  }

  lemma NextOwnBrowser(s: Sys, step: Step, r: nat)
    requires Inv(s) && r < |Next(s, step).restarts|
    ensures OwnBrowser(Next(s, step), r)
  {
    if step.LaunchSucceeds? {
      LaunchedOwnBrowser(s, step, r);
    } else {
      KeptOwnBrowser(s, step, r);
    }
  }

  lemma NextLaunchesOk(s: Sys, step: Step)
    requires Inv(s)
    ensures LaunchesOk(Next(s, step))
  {
    NextLaunchersOk(s, step);
    NextLaunchedOnce(s, step);
    forall r | 0 <= r < |Next(s, step).restarts| ensures OwnBrowser(Next(s, step), r) { NextOwnBrowser(s, step, r); }
  }

  lemma {:induction false} RunInv(s: Sys, steps: seq<Step>)
    requires Inv(s)
    ensures Inv(Run(s, steps))
    decreases |steps|
  {
    if steps != [] {
      NextMutexOk(s, steps[0]);
      NextCallersOk(s, steps[0]);
      NextBrowsersOk(s, steps[0]);
      NextLaunchesOk(s, steps[0]);
      RunInv(Next(s, steps[0]), steps[1..]);
    }
  }

  // ---- What callers may rely on, from start-up and over every run. ----

  lemma InitInv(launched: bool)
    ensures Inv(Init(launched))
  {
  }

  /** At most one restart is running, and the mutex is set exactly while its one initiator is inside. */
  lemma SingleFlight(launched: bool, steps: seq<Step>)
    ensures var s := Run(Init(launched), steps);
      && (forall p, r | 0 <= p < |s.restarts| && 0 <= r < |s.restarts| ::
            !Settled(s.restarts[p]) && !Settled(s.restarts[r]) ==> p == r)
      && (s.mutex.Some? <==> exists c :: c in s.callers && s.callers[c].Initiator?)
      && (forall c, d | c in s.callers && d in s.callers ::
            s.callers[c].Initiator? && s.callers[d].Initiator? ==> c == d)
  {
    InitInv(launched);
    RunInv(Init(launched), steps);
  }

  /** A call is answered at once exactly when a browser is connected, and then with that browser; otherwise
      it joins the restart that runs or starts one. */
  lemma AnsweredAtOnceExactlyWhenConnected(launched: bool, steps: seq<Step>, c: nat)
    requires c !in Run(Init(launched), steps).callers
    ensures var s := Run(Init(launched), steps);
      var t := Next(s, Call(c));
      && c in t.callers
      && (t.callers[c].GotFast? <==> s.connected != {})
      && (t.callers[c].GotFast? ==> s.connected == {t.callers[c].browser})
      && (!t.callers[c].GotFast? ==>
            && (t.callers[c].Initiator? || t.callers[c].Joined?)
            && t.mutex == Some(t.callers[c].restart) && t.callers[c].restart < |t.restarts|)
  {
    InitInv(launched);
    RunInv(Init(launched), steps);
    var s := Run(Init(launched), steps);
    if b :| b in s.connected {
      assert s.connected == {b};
    }
  }

  /** The first call after the browser is lost closes what is left of it and launches another, unless a
      restart is running already. */
  lemma LostBrowserIsReplaced(launched: bool, steps: seq<Step>, b: nat, c: nat)
    requires var s := Run(Init(launched), steps);
      b in s.connected && c !in s.callers
    ensures var s := Run(Init(launched), steps);
      var t := Next(Next(s, Disconnect(b)), Call(c));
      && t.connected == {} && c in t.callers && !t.callers[c].GotFast?
      && (s.mutex.None? ==> t.callers[c] == Initiator(|s.restarts|) && t.restarts == s.restarts + [Closing])
  {
    InitInv(launched);
    RunInv(Init(launched), steps);
    var s := Run(Init(launched), steps);
    assert s.connected == {b} && s.browser == Some(b);
  }

  /** Everyone who waited on one restart got the same browser, the one that restart launched. */
  lemma WaitersShareOneLaunch(launched: bool, steps: seq<Step>, c: nat, d: nat)
    requires var s := Run(Init(launched), steps);
      && c in s.callers && d in s.callers && s.callers[c].Got? && s.callers[d].Got?
      && s.callers[c].restart == s.callers[d].restart
    ensures var s := Run(Init(launched), steps);
      && s.callers[c].browser == s.callers[d].browser < |s.launchedBy|
      && s.launchedBy[s.callers[c].browser] == Some(s.callers[c].restart)
  {
    InitInv(launched);
    RunInv(Init(launched), steps);
    assert OwnBrowser(Run(Init(launched), steps), Run(Init(launched), steps).callers[c].restart);
  }

  /** No two callers see the same restart end differently. */
  lemma WaitersAgreeOnFailure(launched: bool, steps: seq<Step>, c: nat, d: nat)
    requires var s := Run(Init(launched), steps);
      c in s.callers && d in s.callers && s.callers[c].Got? && s.callers[d].Failed?
    ensures Run(Init(launched), steps).callers[c].restart != Run(Init(launched), steps).callers[d].restart
  {
    InitInv(launched);
    RunInv(Init(launched), steps);
  }

  /** At most one launched browser is connected, and a launch only ever replaces a lost browser. */
  lemma LaunchesBoundedByDisconnects(launched: bool, steps: seq<Step>)
    ensures var s := Run(Init(launched), steps);
      && |s.connected| <= 1
      && |s.launchedBy| == |s.connected| + s.disconnects <= 1 + s.disconnects
  {
    InitInv(launched);
    RunInv(Init(launched), steps);
    var s := Run(Init(launched), steps);
    if s.connected != {} {
      var b :| b in s.connected;
      assert s.connected == {b};
    }
  }

  /** A waiting caller is never stranded: its restart has settled, or one step of it is still to come. */
  lemma WaitersCanProceed(launched: bool, steps: seq<Step>, c: nat)
    requires var s := Run(Init(launched), steps);
      c in s.callers && (s.callers[c].Initiator? || s.callers[c].Joined?)
    ensures var s := Run(Init(launched), steps);
      var r := s.callers[c].restart;
      && r < |s.restarts|
      && if Settled(s.restarts[r]) then
           Next(s, Resume(c)).callers[c].Got? || Next(s, Resume(c)).callers[c].Failed?
         else
           Next(s, CloseSettles(r)) != s || Next(s, LaunchFails(r)) != s || Next(s, PidStored(r)) != s
  {
    InitInv(launched);
    RunInv(Init(launched), steps);
    var s := Run(Init(launched), steps);
    var r := s.callers[c].restart;
    assert OwnBrowser(s, r);
    if s.restarts[r].Launching? {
      assert Next(s, LaunchFails(r)).restarts[r] == Rejected;
    } else if s.restarts[r].Closing? {
      assert Next(s, CloseSettles(r)).restarts[r] == Launching;
    } else if s.restarts[r].StoringPid? {
      assert Next(s, PidStored(r)).restarts[r].Resolved?;
    }
  }
}
