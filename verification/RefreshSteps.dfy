/**
 * What each step of the polling effect does, told by what it leaves behind: which timer with which
 * delay, which refresh in flight, which callback that is still to resume.
 */
module RefreshSteps {
  import opened Wrappers
  import opened LiveRefresh

  /** The only timer is one for `i`, held by the ref, with the delay for the page as it is shown now. */
  ghost predicate ArmedFor(s: State, i: Instance) {
    exists t: nat ::
      && s.timeoutRef == Some(t)
      && s.timers == map[t := Timer(i, if s.visible then i.options.interval else i.options.hiddenInterval)]
  }

  /** The only refresh in flight is a new one of `i`. */
  ghost predicate Begun(s: State, s': State, i: Instance, awaited: bool) {
    s'.running && exists f: nat :: f !in s.flights && s'.flights == map[f := Flight(i, awaited)]
  }

  /** `resuming` has one more callback, of `i`. */
  ghost predicate WillResume(s: State, s': State, i: Instance) {
    exists c: nat :: c !in s.resuming && s'.resuming == s.resuming[c := i]
  }

  ghost predicate SameTimers(s: State, s': State) { s'.timers == s.timers && s'.timeoutRef == s.timeoutRef }

  ghost predicate SameFlights(s: State, s': State) { s'.flights == s.flights && s'.running == s.running }

  ghost predicate SameEffect(s: State, s': State) {
    s'.mounted == s.mounted && s'.cancelled == s.cancelled && s'.visible == s.visible
  }

  lemma {:induction false} ScheduleArmsFor(s: State, i: Instance)
    requires OneTimer(s) && i !in s.cancelled
    ensures var s' := ScheduleNext(s, i);
            && ArmedFor(s', i) && SameFlights(s, s') && s'.resuming == s.resuming && SameEffect(s, s')
  {
    var s' := ScheduleNext(s, i);
    assert ClearScheduled(s).timers == map[];
    assert s'.timeoutRef == Some(s.serial);
    assert s'.timers == map[s.serial := s'.timers[s.serial]];
  }

  lemma {:induction false} RefreshBegins(s: State, i: Instance, awaited: bool)
    requires OneFlight(s) && InstancesKnown(s)
    ensures var s' := RunRefresh(s, i, awaited);
            && SameTimers(s, s') && SameEffect(s, s')
            && if i !in s.cancelled && !s.running
               then Begun(s, s', i, awaited) && s'.resuming == s.resuming
               else SameFlights(s, s') && if awaited then WillResume(s, s', i) else s'.resuming == s.resuming
  {
    assert s.serial !in s.flights && s.serial !in s.resuming;
    if i !in s.cancelled && !s.running {
      assert s.flights == map[];
      assert RunRefresh(s, i, awaited).flights == map[s.serial := Flight(i, awaited)];
    }
  }

  /** Setting up mounts an instance never seen before and arms its timer; it does not refresh yet. */
  lemma {:induction false} SetUpArms(s: State, options: Options)
    requires Invariant(s) && s.mounted.None?
    ensures var s' := Next(s, SetUp(options));
            && s'.mounted.Some? && s'.mounted.value.options == options && s'.mounted.value !in s.cancelled
            && (forall f :: f in s.flights ==> s.flights[f].instance != s'.mounted.value)
            && (forall c :: c in s.resuming ==> s.resuming[c] != s'.mounted.value)
            && ArmedFor(s', s'.mounted.value) && SameFlights(s, s') && s'.resuming == s.resuming
            && s'.cancelled == s.cancelled && s'.visible == s.visible
  {
    hide ArmedFor, ScheduleNext, OneFlight, TimersCurrent;
    var i := Instance(s.serial, options);
    ScheduleArmsFor(s.(mounted := Some(i), serial := s.serial + 1), i);
  }

  /** Cleaning up cancels the instance and its timer; a refresh in flight goes on. */
  lemma {:induction false} CleanUpDisarms(s: State)
    requires Invariant(s) && s.mounted.Some?
    ensures var s' := Next(s, CleanUp);
            && s'.mounted == None && s'.cancelled == s.cancelled + {s.mounted.value} && s'.timers == map[]
            && SameFlights(s, s') && s'.resuming == s.resuming && s'.visible == s.visible
  {
  }

  /** A timer that fires is gone; its callback awaits a new refresh, or resumes if one is running. */
  lemma {:induction false} FireRefreshes(s: State, t: nat)
    requires Invariant(s) && t in s.timers
    ensures var s', i := Next(s, Fire(t)), s.timers[t].instance;
            && s.mounted == Some(i) && s'.timers == map[] && SameEffect(s, s')
            && if s.running then SameFlights(s, s') && WillResume(s, s', i)
               else Begun(s, s', i, true) && s'.resuming == s.resuming
  {
    hide Begun, WillResume, RunRefresh;
    RefreshBegins(s.(timers := s.timers - {t}), s.timers[t].instance, true);
    RefreshBeginsWithout(s, t, s.timers[t].instance);
  }

  /** The timers do not matter to what a refresh does. */
  lemma {:induction false} RefreshBeginsWithout(s: State, t: nat, i: Instance)
    ensures var r := s.(timers := s.timers - {t});
            forall s' :: (Begun(r, s', i, true) <==> Begun(s, s', i, true))
                      && (WillResume(r, s', i) <==> WillResume(s, s', i))
  {
  }

  /** A callback that resumes arms the next timer, unless its instance was cancelled meanwhile. */
  lemma {:induction false} ResumeArms(s: State, c: nat)
    requires Invariant(s) && c in s.resuming
    ensures var s', i := Next(s, Resume(c)), s.resuming[c];
            && s'.resuming == s.resuming - {c} && SameFlights(s, s') && SameEffect(s, s')
            && if i in s.cancelled then SameTimers(s, s') else s.mounted == Some(i) && ArmedFor(s', i)
  {
    hide ArmedFor, OneFlight, TimersCurrent;
    if s.resuming[c] !in s.cancelled { ScheduleArmsFor(s.(resuming := s.resuming - {c}), s.resuming[c]); }
  }

  /** What a window event does: it refreshes if it is asked to, and arms the timer anew in any case. */
  ghost predicate Handled(s: State, s': State, refreshes: bool) {
    && s'.mounted == s.mounted && s'.cancelled == s.cancelled && s'.resuming == s.resuming
    && if s.mounted.None? then SameTimers(s, s') && SameFlights(s, s')
       else
         && ArmedFor(s', s.mounted.value)
         && if refreshes && !s.running then Begun(s, s', s.mounted.value, false) else SameFlights(s, s')
  }

  /** Focus asks for a refresh if that option is set, whether or not the page is shown. */
  lemma {:induction false} FocusRefreshes(s: State)
    requires Invariant(s)
    ensures var s' := Next(s, Focus);
            && s'.visible == s.visible
            && Handled(s, s', s.mounted.Some? && s.mounted.value.options.refreshOnFocus)
  {
    hide ScheduleNext, RunRefresh, ArmedFor;
    if s.mounted.Some? {
      var i := s.mounted.value;
      RefreshBegins(s, i, false);
      ScheduleArmsFor(s, i);
      ScheduleArmsFor(RunRefresh(s, i, false), i);
    }
  }

  /** A visibility event asks for a refresh if the page has become visible and that option is set. */
  lemma {:induction false} VisibleRefreshes(s: State, visible: bool)
    requires Invariant(s)
    ensures var s' := Next(s, VisibilityChange(visible));
            && s'.visible == visible
            && Handled(s, s', s.mounted.Some? && visible && s.mounted.value.options.refreshOnVisible)
  {
    hide ScheduleNext, RunRefresh, ArmedFor;
    if s.mounted.Some? {
      var v, i := s.(visible := visible), s.mounted.value;
      RefreshBegins(v, i, false);
      ScheduleArmsFor(v, i);
      ScheduleArmsFor(RunRefresh(v, i, false), i);
    }
  }

  /** A refresh that ends leaves none in flight; the callback that awaits it resumes unless it rejected. */
  lemma {:induction false} EndResumes(s: State, f: nat, rejected: bool)
    requires Invariant(s) && f in s.flights
    ensures var s' := Next(s, if rejected then Reject(f) else Complete(f));
            && !s'.running && s'.flights == map[] && SameTimers(s, s') && SameEffect(s, s')
            && if s.flights[f].awaited && !rejected then WillResume(s, s', s.flights[f].instance)
               else s'.resuming == s.resuming
  {
    assert s.serial !in s.resuming;
  }
}
