/** The manager object itself: one method per segment between two awaits, over its own fields. */
module PuppeteerProcessManager {
  import opened Wrappers
  import opened BrowserManager

  class Manager {
    var browser: Option<nat>
    var browserRestartPromise: Option<nat>
    // The promises and callers the event loop holds, and the browser processes.
    var restarts: seq<Restart>
    var callers: map<nat, Caller>
    var connected: set<nat>
    var launchedBy: seq<Option<nat>>
    ghost var disconnects: nat

    ghost function State(): Sys
      reads this
    {
      Sys(browser, browserRestartPromise, restarts, callers, connected, launchedBy, disconnects)
    }

    ghost predicate Valid()
      reads this
    {
      Inv(State())
    }

    /** onModuleInit: a failed launch is logged and leaves the field null. */
    constructor OnModuleInit(launched: bool)
      ensures Valid() && State() == Init(launched)
      ensures browser == (if launched then Some(0) else None) && browserRestartPromise.None?
      ensures connected == (if launched then {0} else {}) && restarts == [] && callers == map[]
    {
      browser := None;
      browserRestartPromise := None;
      restarts, callers, connected, launchedBy, disconnects := [], map[], {}, [], 0;
      if launched {
        browser := Some(0);
        connected, launchedBy := {0}, [None];
      }
      new;
      InitInv(launched);
    }

    ghost method Keep(before: Sys, step: Step)
      requires Inv(before) && State() == Next(before, step)
      ensures Valid()
    {
      NextMutexOk(before, step);
      NextCallersOk(before, step);
      NextBrowsersOk(before, step);
      NextLaunchesOk(before, step);
    }

    /** getBrowser up to its first await; restartBrowser starts running inside it. */
    method GetBrowser(c: nat)
      requires Valid() && c !in callers
      modifies this
      ensures Valid() && State() == Next(old(State()), Call(c))
      ensures c in callers && callers == old(callers)[c := callers[c]]
      ensures browser == old(browser) && connected == old(connected) && launchedBy == old(launchedBy)
      ensures callers[c].GotFast? <==> old(browser).Some? && old(browser).value in old(connected)
      ensures callers[c].GotFast? ==> callers[c].browser == old(browser).value
      ensures !callers[c].GotFast? ==>
        callers[c] == if old(browserRestartPromise).Some? then Joined(old(browserRestartPromise).value)
                      else Initiator(|old(restarts)|)
      ensures callers[c].Initiator? ==>
        && restarts == old(restarts) + [if old(browser).Some? then Closing else Launching]
        && browserRestartPromise == Some(|old(restarts)|)
      ensures !callers[c].Initiator? ==>
        restarts == old(restarts) && browserRestartPromise == old(browserRestartPromise)
    {
      ghost var before := State();
      if browser.Some? && browser.value in connected {
        callers := callers[c := GotFast(browser.value)];
      } else if browserRestartPromise.Some? {
        callers := callers[c := Joined(browserRestartPromise.value)];
      } else {
        var r := |restarts|;
        if browser.Some? {
          restarts := restarts + [Closing];
        } else {
          restarts := restarts + [Launching];
        }
        browserRestartPromise := Some(r);
        callers := callers[c := Initiator(r)];
      }
      Keep(before, Call(c));
    }

    /** restartBrowser after close() settled, whether it resolved or threw. */
    method AfterClose(r: nat)
      requires Valid() && InPhase(State(), r, Closing)
      modifies this
      ensures Valid() && State() == Next(old(State()), CloseSettles(r))
      ensures browser.None? && connected == {} && restarts == old(restarts)[r := Launching]
    {
      ghost var before := State();
      browser := None;
      restarts := restarts[r := Launching];
      Keep(before, CloseSettles(r));
    }

    method AfterLaunch(r: nat, pidKnown: bool)
      requires Valid() && InPhase(State(), r, Launching)
      modifies this
      ensures Valid() && State() == Next(old(State()), LaunchSucceeds(r, pidKnown))
      ensures browser == Some(|old(launchedBy)|) && connected == {|old(launchedBy)|}
      ensures launchedBy == old(launchedBy) + [Some(r)]
      ensures restarts == old(restarts)[r := if pidKnown then StoringPid else Resolved(|old(launchedBy)|)]
    {
      ghost var before := State();
      var b := |launchedBy|;
      browser := Some(b);
      connected := connected + {b};
      launchedBy := launchedBy + [Some(r)];
      restarts := restarts[r := if pidKnown then StoringPid else Resolved(b)];
      Keep(before, LaunchSucceeds(r, pidKnown));
    }

    method AfterLaunchFailure(r: nat)
      requires Valid() && InPhase(State(), r, Launching)
      modifies this
      ensures Valid() && State() == Next(old(State()), LaunchFails(r))
      ensures browser.None? && connected == {} && restarts == old(restarts)[r := Rejected]
    {
      ghost var before := State();
      browser := None;
      restarts := restarts[r := Rejected];
      Keep(before, LaunchFails(r));
    }

    /** `return this.browser` after the PID file was written: the field still holds this restart's browser. */
    method AfterStorePid(r: nat)
      requires Valid() && InPhase(State(), r, StoringPid)
      modifies this
      ensures Valid() && State() == Next(old(State()), PidStored(r))
      ensures browser == old(browser) && browser.Some? && restarts == old(restarts)[r := Resolved(browser.value)]
      ensures browser.value < |launchedBy| && launchedBy[browser.value] == Some(r)
    {
      ghost var before := State();
      assert OwnBrowser(State(), r);
      restarts := restarts[r := Resolved(browser.value)];
      Keep(before, PidStored(r));
    }

    /** A caller continues after the promise it awaited settled; the initiator releases the mutex. */
    method ResumeCaller(c: nat)
      requires Valid() && c in callers && (callers[c].Initiator? || callers[c].Joined?)
      requires callers[c].restart < |restarts| && Settled(restarts[callers[c].restart])
      modifies this
      ensures Valid() && State() == Next(old(State()), Resume(c))
      ensures old(callers[c].Initiator?) ==> browserRestartPromise.None?
      ensures old(callers[c].Joined?) ==> browserRestartPromise == old(browserRestartPromise)
      ensures restarts == old(restarts) && callers.Keys == old(callers).Keys
      ensures var r := old(callers)[c].restart;
        callers == old(callers)[c := if restarts[r].Resolved? then Got(r, restarts[r].browser) else Failed(r)]
    {
      ghost var before := State();
      var r := callers[c].restart;
      if callers[c].Initiator? {
        browserRestartPromise := None;
      }
      if restarts[r].Resolved? {
        callers := callers[c := Got(r, restarts[r].browser)];
      } else {
        callers := callers[c := Failed(r)];
      }
      Keep(before, Resume(c));
    }
  }
}
