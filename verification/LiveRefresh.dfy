/**
 * The polling effect as interleaved steps (ui/lib/useLiveRefresh.ts:13-88).
 *
 * Between two steps the browser may run any other: a timer fires, a window event arrives, a
 * refresh ends, an `await` resumes, the effect is cleaned up or set up again. `running` and
 * `timeoutRef` outlive an effect instance; `cancelled` belongs to one.
 */
module LiveRefresh {
  import opened Wrappers

  datatype Options = Options(interval: nat, hiddenInterval: nat, refreshOnFocus: bool, refreshOnVisible: bool)

  /** One run of the effect, from set-up to cleanup. */
  datatype Instance = Instance(id: nat, options: Options)

  datatype Timer = Timer(instance: Instance, delay: nat)

  /** A call of `refresh` that has not ended; a timer callback awaits it, an event handler does not. */
  datatype Flight = Flight(instance: Instance, awaited: bool)

  datatype State = State(
    running: bool,
    timeoutRef: Option<nat>,
    timers: map<nat, Timer>,
    flights: map<nat, Flight>,
    resuming: map<nat, Instance>,
    cancelled: set<Instance>,
    mounted: Option<Instance>,
    visible: bool,
    serial: nat)

  datatype Step =
    | SetUp(options: Options)
    | CleanUp
    | Fire(timer: nat)
    | Resume(callback: nat)
    | Focus
    | VisibilityChange(visible: bool)
    | Complete(flight: nat)
    | Reject(flight: nat)

  // ---------------------------------------------------------------- specification

  const INITIAL := State(false, None, map[], map[], map[], {}, None, true, 0)

  function ClearScheduled(s: State): State {
    if s.timeoutRef.Some? then s.(timers := s.timers - {s.timeoutRef.value}, timeoutRef := None) else s
  }

  function Delay(s: State, i: Instance): nat {
    if s.visible then i.options.interval else i.options.hiddenInterval
  }

  function ScheduleNext(s: State, i: Instance): State {
    if i in s.cancelled then s
    else
      var c := ClearScheduled(s);
      c.(timers := c.timers[c.serial := Timer(i, Delay(c, i))], timeoutRef := Some(c.serial), serial := c.serial + 1)
  }

  /** A refusal returns at once, so whoever awaits it resumes next. */
  function RunRefresh(s: State, i: Instance, awaited: bool): State {
    if i in s.cancelled || s.running then
      if awaited then s.(resuming := s.resuming[s.serial := i], serial := s.serial + 1) else s
    else
      s.(running := true, flights := s.flights[s.serial := Flight(i, awaited)], serial := s.serial + 1)
  }

  /** The flight ends; its timer callback, if any, resumes only if it did not reject. */
  function EndRefresh(s: State, flight: nat, rejected: bool): State
    requires flight in s.flights
  {
    var f := s.flights[flight];
    var ended := s.(running := false, flights := s.flights - {flight});
    if f.awaited && !rejected then
      ended.(resuming := ended.resuming[ended.serial := f.instance], serial := ended.serial + 1)
    else ended
  }

  predicate Enabled(s: State, step: Step) {
    match step
    case SetUp(_) => s.mounted.None?
    case CleanUp => s.mounted.Some?
    case Fire(t) => t in s.timers
    case Resume(c) => c in s.resuming
    case Focus => true
    case VisibilityChange(_) => true
    case Complete(f) => f in s.flights
    case Reject(f) => f in s.flights
  }

  function Next(s: State, step: Step): State
    requires Enabled(s, step)
  {
    match step
    case SetUp(options) =>
      var i := Instance(s.serial, options);
      ScheduleNext(s.(mounted := Some(i), serial := s.serial + 1), i)
    case CleanUp => ClearScheduled(s.(cancelled := s.cancelled + {s.mounted.value}, mounted := None))
    case Fire(t) => RunRefresh(s.(timers := s.timers - {t}), s.timers[t].instance, true)
    case Resume(c) => ScheduleNext(s.(resuming := s.resuming - {c}), s.resuming[c])
    case Focus =>
      if s.mounted.None? then s
      else
        var i := s.mounted.value;
        ScheduleNext(if i.options.refreshOnFocus then RunRefresh(s, i, false) else s, i)
    case VisibilityChange(visible) =>
      var v := s.(visible := visible);
      if s.mounted.None? then v
      else
        var i := s.mounted.value;
        ScheduleNext(if visible && i.options.refreshOnVisible then RunRefresh(v, i, false) else v, i)
    case Complete(f) => EndRefresh(s, f, false)
    case Reject(f) => EndRefresh(s, f, true)
  }

  // ---------------------------------------------------------------- the handlers

  class Poller {
    var running: bool
    var timeoutRef: Option<nat>
    var timers: map<nat, Timer>
    var flights: map<nat, Flight>
    var resuming: map<nat, Instance>
    var cancelled: set<Instance>
    var mounted: Option<Instance>
    var visible: bool
    var serial: nat

    ghost function View(): State
      reads this
    {
      State(running, timeoutRef, timers, flights, resuming, cancelled, mounted, visible, serial)
    }

    constructor ()
      ensures View() == INITIAL && Invariant(View())
    {
      running, timeoutRef, timers, flights, resuming := false, None, map[], map[], map[];
      cancelled, mounted, visible, serial := {}, None, true, 0;
    }

    method ClearTimeout()
      modifies this
      ensures View() == ClearScheduled(old(View()))
    {
      if timeoutRef.Some? {
        timers := timers - {timeoutRef.value};
        timeoutRef := None;
      }
    }

    method Schedule(i: Instance)
      modifies this
      ensures View() == ScheduleNext(old(View()), i)
    {
      if i in cancelled { return; }
      ClearTimeout();
      var nextDelay := if visible then i.options.interval else i.options.hiddenInterval;
      timers := timers[serial := Timer(i, nextDelay)];
      timeoutRef := Some(serial);
      serial := serial + 1;
    }

    method Refresh(i: Instance, awaited: bool)
      modifies this
      ensures View() == RunRefresh(old(View()), i, awaited)
    {
      if i in cancelled || running {
        if awaited {
          resuming := resuming[serial := i];
          serial := serial + 1;
        }
        return;
      }
      running := true;
      flights := flights[serial := Flight(i, awaited)];
      serial := serial + 1;
    }

    method OnSetUp(options: Options)
      requires Invariant(View()) && mounted.None?
      modifies this
      ensures View() == Next(old(View()), SetUp(options))
      ensures Invariant(View())
    {
      hide Invariant;
      StepKeepsInvariant(View(), SetUp(options));
      var i := Instance(serial, options);
      mounted, serial := Some(i), serial + 1;
      Schedule(i);
    }

    method OnCleanUp()
      requires Invariant(View()) && mounted.Some?
      modifies this
      ensures View() == Next(old(View()), CleanUp)
      ensures Invariant(View())
    {
      hide Invariant;
      StepKeepsInvariant(View(), CleanUp);
      cancelled := cancelled + {mounted.value};
      mounted := None;
      ClearTimeout();
    }

    method OnTimer(t: nat)
      requires Invariant(View()) && t in timers
      modifies this
      ensures View() == Next(old(View()), Fire(t))
      ensures Invariant(View())
    {
      hide Invariant;
      StepKeepsInvariant(View(), Fire(t));
      var i := timers[t].instance;
      timers := timers - {t};
      Refresh(i, true);
    }

    method OnResume(c: nat)
      requires Invariant(View()) && c in resuming
      modifies this
      ensures View() == Next(old(View()), Resume(c))
      ensures Invariant(View())
    {
      hide Invariant;
      StepKeepsInvariant(View(), Resume(c));
      var i := resuming[c];
      resuming := resuming - {c};
      Schedule(i);
    }

    method OnFocus()
      requires Invariant(View())
      modifies this
      ensures View() == Next(old(View()), Focus)
      ensures Invariant(View())
    {
      hide Invariant;
      StepKeepsInvariant(View(), Focus);
      if mounted.None? { return; }
      var i := mounted.value;
      if i.options.refreshOnFocus { Refresh(i, false); }
      Schedule(i);
    }

    method OnVisibilityChange(nowVisible: bool)
      requires Invariant(View())
      modifies this
      ensures View() == Next(old(View()), VisibilityChange(nowVisible))
      ensures Invariant(View())
    {
      hide Invariant;
      StepKeepsInvariant(View(), VisibilityChange(nowVisible));
      visible := nowVisible;
      if mounted.None? { return; }
      var i := mounted.value;
      if nowVisible && i.options.refreshOnVisible { Refresh(i, false); }
      Schedule(i);
    }

    method OnRefreshEnd(f: nat, rejected: bool)
      requires Invariant(View()) && f in flights
      modifies this
      ensures View() == Next(old(View()), if rejected then Reject(f) else Complete(f))
      ensures Invariant(View())
    {
      hide Invariant;
      StepKeepsInvariant(View(), if rejected then Reject(f) else Complete(f));
      var flight := flights[f];
      running := false;
      flights := flights - {f};
      if flight.awaited && !rejected {
        resuming := resuming[serial := flight.instance];
        serial := serial + 1;
      }
    }
  }

  // ---------------------------------------------------------------- what every state satisfies

  ghost predicate Known(s: State, i: Instance) { i in s.cancelled || s.mounted == Some(i) }

  /** At most one refresh is in flight, and `running` says so. */
  ghost predicate OneFlight(s: State) {
    && (forall f, g :: f in s.flights && g in s.flights ==> f == g)
    && (s.running <==> exists f :: f in s.flights)
  }

  /** At most one timer is live: the one that the ref holds. */
  ghost predicate OneTimer(s: State) {
    forall t :: t in s.timers ==> s.timeoutRef == Some(t)
  }

  /** Live timers belong to the mounted instance and have the delay for the current visibility. */
  ghost predicate TimersCurrent(s: State) {
    forall t :: t in s.timers ==>
      s.mounted == Some(s.timers[t].instance) && s.timers[t].delay == Delay(s, s.timers[t].instance)
  }

  /** Every instance in play was set up before, and the mounted one is not cancelled. */
  ghost predicate InstancesKnown(s: State) {
    && (s.mounted.Some? ==> s.mounted.value !in s.cancelled && s.mounted.value.id < s.serial)
    && (forall i :: i in s.cancelled ==> i.id < s.serial)
    && (forall f :: f in s.flights ==> f < s.serial && Known(s, s.flights[f].instance))
    && (forall c :: c in s.resuming ==> c < s.serial && Known(s, s.resuming[c]))
    && (s.timeoutRef.Some? ==> s.timeoutRef.value < s.serial)
  }

  ghost predicate Invariant(s: State) { OneFlight(s) && OneTimer(s) && TimersCurrent(s) && InstancesKnown(s) }

  /** Scheduling replaces whatever timer there was, so it needs no timer to be current before. */
  lemma {:induction false} ScheduleRestores(s: State, i: Instance)
    requires OneFlight(s) && OneTimer(s) && InstancesKnown(s) && s.mounted == Some(i)
    ensures Invariant(ScheduleNext(s, i))
  {
    var c := ClearScheduled(s);
    assert c.timers == map[];
  }

  lemma {:induction false} ResumeKeepsInvariant(s: State, c: nat)
    requires Invariant(s) && c in s.resuming
    ensures Invariant(Next(s, Resume(c)))
  {
    var r := s.(resuming := s.resuming - {c});
    if s.resuming[c] !in s.cancelled { ScheduleRestores(r, s.resuming[c]); }
  }

  lemma {:induction false} HandlerKeepsInvariant(s: State, i: Instance, refresh: bool)
    requires OneFlight(s) && OneTimer(s) && InstancesKnown(s) && s.mounted == Some(i)
    ensures Invariant(ScheduleNext(if refresh then RunRefresh(s, i, false) else s, i))
  {
    var r := if refresh then RunRefresh(s, i, false) else s;
    if refresh && !s.running { assert s.serial in r.flights; }
    ScheduleRestores(r, i);
  }

  lemma {:induction false} RefreshKeepsInvariant(s: State, i: Instance, awaited: bool)
    requires Known(s, i) && Invariant(s)
    ensures Invariant(RunRefresh(s, i, awaited))
  {
    if i !in s.cancelled && !s.running {
      assert s.serial in RunRefresh(s, i, awaited).flights;
    }
  }

  lemma {:induction false} EndKeepsInvariant(s: State, flight: nat, rejected: bool)
    requires Invariant(s) && flight in s.flights
    ensures Invariant(EndRefresh(s, flight, rejected))
  {
  }

  /** Every step keeps at most one refresh in flight and at most one live timer, the current one. */
  lemma {:induction false} StepKeepsInvariant(s: State, step: Step)
    requires Invariant(s) && Enabled(s, step)
    ensures Invariant(Next(s, step))
  {
    hide OneFlight, OneTimer, TimersCurrent, InstancesKnown, ScheduleNext, RunRefresh, EndRefresh;
    match step
    case SetUp(options) => SetUpKeepsInvariant(s, options);
    case CleanUp => CleanUpKeepsInvariant(s);
    case Fire(t) => FireKeepsInvariant(s, t);
    case Resume(c) => ResumeKeepsInvariant(s, c);
    case Focus =>
      if s.mounted.Some? { HandlerKeepsInvariant(s, s.mounted.value, s.mounted.value.options.refreshOnFocus); }
    case VisibilityChange(visible) => VisibilityKeepsInvariant(s, visible);
    case Complete(f) => EndKeepsInvariant(s, f, false);
    case Reject(f) => EndKeepsInvariant(s, f, true);
  }

  lemma {:induction false} SetUpKeepsInvariant(s: State, options: Options)
    requires Invariant(s) && s.mounted.None?
    ensures Invariant(Next(s, SetUp(options)))
  {
    hide ScheduleNext;
    var i := Instance(s.serial, options);
    ScheduleRestores(s.(mounted := Some(i), serial := s.serial + 1), i);
  }

  lemma {:induction false} CleanUpKeepsInvariant(s: State)
    requires Invariant(s) && s.mounted.Some?
    ensures Invariant(Next(s, CleanUp))
  {
  }

  lemma {:induction false} FireKeepsInvariant(s: State, t: nat)
    requires Invariant(s) && t in s.timers
    ensures Invariant(Next(s, Fire(t)))
  {
    RefreshKeepsInvariant(s.(timers := s.timers - {t}), s.timers[t].instance, true);
  }

  lemma {:induction false} VisibilityKeepsInvariant(s: State, visible: bool)
    requires Invariant(s)
    ensures Invariant(Next(s, VisibilityChange(visible)))
  {
    if s.mounted.Some? {
      var i := s.mounted.value;
      HandlerKeepsInvariant(s.(visible := visible), i, visible && i.options.refreshOnVisible);
    }
  }

  // ---------------------------------------------------------------- runs

  /** `states` are the states of a run that takes `steps` one after another. */
  ghost predicate IsRun(states: seq<State>, steps: seq<Step>) {
    && |states| == |steps| + 1 && states[0] == INITIAL
    && forall k :: 0 <= k < |steps| ==> Enabled(states[k], steps[k]) && states[k + 1] == Next(states[k], steps[k])
  }

  lemma {:induction false} RunKeepsInvariant(states: seq<State>, steps: seq<Step>, k: nat)
    requires IsRun(states, steps) && k < |states|
    ensures Invariant(states[k])
  {
    if k == 0 {
    } else {
      RunKeepsInvariant(states, steps, k - 1);
      StepKeepsInvariant(states[k - 1], steps[k - 1]);
    }
  }

  /** In every reachable state at most one refresh is in flight and at most one timer is live. */
  lemma {:induction false} AtMostOneOfEach(states: seq<State>, steps: seq<Step>, k: nat)
    requires IsRun(states, steps) && k < |states|
    ensures |states[k].flights| <= 1 && |states[k].timers| <= 1
    ensures states[k].mounted.None? ==> states[k].timers == map[]
  {
    RunKeepsInvariant(states, steps, k);
    AtMostOneKey(states[k].flights.Keys);
    AtMostOneKey(states[k].timers.Keys);
  }

  lemma {:induction false} AtMostOneKey(s: set<nat>)
    requires forall a, b :: a in s && b in s ==> a == b
    ensures |s| <= 1
  {
    if s != {} {
      var a :| a in s;
      assert s == {a};
    }
  }

  // ---------------------------------------------------------------- a cancelled instance is silent

  /** No flight of `i` is new, and no timer is its own. */
  ghost predicate StartsNothing(s: State, s': State, i: Instance) {
    && (forall f :: f in s'.flights && s'.flights[f].instance == i ==> f in s.flights && s.flights[f] == s'.flights[f])
    && (forall t :: t in s'.timers ==> s'.timers[t].instance != i)
  }

  ghost predicate OnlyAllowed(s: State, s': State) {
    forall f :: f in s'.flights ==>
      if f in s.flights then s'.flights[f] == s.flights[f] else s'.flights[f].instance !in s.cancelled
  }

  lemma {:induction false} PartsStartAllowed(s: State, i: Instance, awaited: bool)
    requires OneFlight(s)
    ensures ScheduleNext(s, i).flights == s.flights && OnlyAllowed(s, RunRefresh(s, i, awaited))
  {
  }

  /** Flights of a step: the old ones, and perhaps one of an instance that is not cancelled. */
  lemma {:induction false} NewFlights(s: State, step: Step)
    requires Invariant(s) && Enabled(s, step)
    ensures OnlyAllowed(s, Next(s, step))
  {
    hide ScheduleNext, RunRefresh, OneTimer, TimersCurrent, InstancesKnown;
    match step
    case SetUp(options) =>
      var i := Instance(s.serial, options);
      PartsStartAllowed(s.(mounted := Some(i), serial := s.serial + 1), i, false);
    case Fire(t) => PartsStartAllowed(s.(timers := s.timers - {t}), s.timers[t].instance, true);
    case Resume(c) => PartsStartAllowed(s.(resuming := s.resuming - {c}), s.resuming[c], false);
    case Focus =>
      if s.mounted.Some? { HandlerStartsAllowed(s, s.mounted.value); }
    case VisibilityChange(visible) =>
      if s.mounted.Some? { HandlerStartsAllowed(s.(visible := visible), s.mounted.value); }
    case _ =>
  }

  lemma {:induction false} HandlerStartsAllowed(s: State, i: Instance)
    requires OneFlight(s)
    ensures OnlyAllowed(s, ScheduleNext(s, i)) && OnlyAllowed(s, ScheduleNext(RunRefresh(s, i, false), i))
  {
  }

  lemma {:induction false} PartsKeepCancelled(s: State, i: Instance, awaited: bool)
    ensures ScheduleNext(s, i).cancelled == s.cancelled
    ensures RunRefresh(s, i, awaited).cancelled == s.cancelled
  {
  }

  lemma {:induction false} CancelledStays(s: State, step: Step)
    requires Enabled(s, step)
    ensures s.cancelled <= Next(s, step).cancelled
  {
    hide ScheduleNext, RunRefresh;
    match step
    case SetUp(options) =>
      var i := Instance(s.serial, options);
      PartsKeepCancelled(s.(mounted := Some(i), serial := s.serial + 1), i, false);
    case Fire(t) => PartsKeepCancelled(s.(timers := s.timers - {t}), s.timers[t].instance, true);
    case Resume(c) => PartsKeepCancelled(s.(resuming := s.resuming - {c}), s.resuming[c], false);
    case Focus =>
      if s.mounted.Some? {
        PartsKeepCancelled(s, s.mounted.value, false);
        PartsKeepCancelled(RunRefresh(s, s.mounted.value, false), s.mounted.value, false);
      }
    case VisibilityChange(visible) =>
      if s.mounted.Some? {
        var v := s.(visible := visible);
        PartsKeepCancelled(v, s.mounted.value, false);
        PartsKeepCancelled(RunRefresh(v, s.mounted.value, false), s.mounted.value, false);
      }
    case _ =>
  }

  lemma {:induction false} CancelledStepStartsNothing(s: State, step: Step, i: Instance)
    requires Invariant(s) && Enabled(s, step) && i in s.cancelled
    ensures StartsNothing(s, Next(s, step), i) && i in Next(s, step).cancelled
  {
    hide Next;
    StepKeepsInvariant(s, step);
    CancelledStays(s, step);
    NewFlights(s, step);
  }

  /** After its cleanup an effect instance starts no refresh and no timer, in any continuation. */
  lemma {:induction false} CancelledForGood(states: seq<State>, steps: seq<Step>, from: nat, k: nat, i: Instance)
    requires IsRun(states, steps) && from <= k < |states| && i in states[from].cancelled
    ensures i in states[k].cancelled && StartsNothing(states[from], states[k], i)
    decreases k
  {
    hide Next;
    RunKeepsInvariant(states, steps, k);
    if from < k {
      CancelledForGood(states, steps, from, k - 1, i);
      RunKeepsInvariant(states, steps, k - 1);
      CancelledStepStartsNothing(states[k - 1], steps[k - 1], i);
    }
  }

  // ---------------------------------------------------------------- polling goes on

  /** A timer of the mounted instance is live, or a callback of it is still going to set one. */
  ghost predicate KeepsPolling(s: State) {
    s.mounted.Some? ==>
      || (exists t :: t in s.timers)
      || (exists c :: c in s.resuming && s.resuming[c] == s.mounted.value)
      || (exists f :: f in s.flights && s.flights[f] == Flight(s.mounted.value, true))
  }

  /** The one way out: the refresh that the timer callback awaits rejects, with nothing else scheduled. */
  ghost predicate Stalls(s: State, step: Step) {
    && step.Reject? && step.flight in s.flights
    && s.mounted.Some? && s.flights[step.flight] == Flight(s.mounted.value, true)
    && s.timers == map[]
    && forall c :: c in s.resuming ==> s.resuming[c] != s.mounted.value
  }

  lemma {:induction false} ScheduleArms(s: State, i: Instance)
    requires i !in s.cancelled
    ensures ScheduleNext(s, i).timeoutRef == Some(s.serial) && s.serial in ScheduleNext(s, i).timers
  {
  }

  lemma {:induction false} RefreshPolls(s: State, i: Instance)
    requires i !in s.cancelled && s.mounted == Some(i)
    ensures KeepsPolling(RunRefresh(s, i, true))
  {
    var s' := RunRefresh(s, i, true);
    if s.running { assert s'.resuming[s.serial] == i; } else { assert s'.flights[s.serial] == Flight(i, true); }
  }

  lemma {:induction false} EndPolls(s: State, f: nat, rejected: bool)
    requires Invariant(s) && KeepsPolling(s) && f in s.flights
    ensures KeepsPolling(EndRefresh(s, f, rejected)) <==> !(rejected && Stalls(s, Reject(f)))
  {
    var s' := EndRefresh(s, f, rejected);
    if s.mounted.Some? {
      var i := s.mounted.value;
      if t :| t in s.timers {
        assert t in s'.timers;
      } else if c :| c in s.resuming && s.resuming[c] == i {
        assert s'.resuming[c] == i;
      } else {
        assert s.flights[f] == Flight(i, true);
        if !rejected { assert s'.resuming[s.serial] == i; }
      }
    }
  }

  /**
   * Polling survives a step if and only if the step is not the rejection of the refresh that the
   * only polling callback awaits: that callback ends without scheduling a successor.
   */
  lemma {:induction false} PollingSurvivesIff(s: State, step: Step)
    requires Invariant(s) && KeepsPolling(s) && Enabled(s, step)
    ensures KeepsPolling(Next(s, step)) <==> !Stalls(s, step)
  {
    hide OneFlight, OneTimer, ScheduleNext, RunRefresh, EndRefresh;
    match step
    case SetUp(options) =>
      var i := Instance(s.serial, options);
      ScheduleArms(s.(mounted := Some(i), serial := s.serial + 1), i);
    case CleanUp =>
    case Fire(t) => RefreshPolls(s.(timers := s.timers - {t}), s.timers[t].instance);
    case Resume(c) => ResumePolls(s, c);
    case Focus => if s.mounted.Some? { HandlerArms(s, s.mounted.value, s.mounted.value.options.refreshOnFocus); }
    case VisibilityChange(visible) =>
      if s.mounted.Some? {
        HandlerArms(s.(visible := visible), s.mounted.value, visible && s.mounted.value.options.refreshOnVisible);
      }
    case Complete(f) => EndPolls(s, f, false);
    case Reject(f) => EndPolls(s, f, true);
  }

  lemma {:induction false} ResumePolls(s: State, c: nat)
    requires Invariant(s) && KeepsPolling(s) && c in s.resuming
    ensures KeepsPolling(Next(s, Resume(c)))
  {
    var i, r := s.resuming[c], s.(resuming := s.resuming - {c});
    if i !in s.cancelled {
      ScheduleArms(r, i);
    } else if s.mounted.Some? {
      if t :| t in s.timers {
        assert t in r.timers;
      } else if d :| d in s.resuming && s.resuming[d] == s.mounted.value {
        assert d in r.resuming && r.resuming[d] == s.mounted.value;
      }
    }
  }

  lemma {:induction false} HandlerArms(s: State, i: Instance, refresh: bool)
    requires i !in s.cancelled
    ensures KeepsPolling(ScheduleNext(if refresh then RunRefresh(s, i, false) else s, i))
  {
    ScheduleArms(if refresh then RunRefresh(s, i, false) else s, i);
  }

  /** In a run without such a rejection, the mounted instance is always going to poll again. */
  lemma {:induction false} PollingNeverStops(states: seq<State>, steps: seq<Step>, k: nat)
    requires IsRun(states, steps) && k < |states|
    requires forall j :: 0 <= j < k ==> !Stalls(states[j], steps[j])
    ensures KeepsPolling(states[k])
  {
    if k == 0 {
    } else {
      PollingNeverStops(states, steps, k - 1);
      RunKeepsInvariant(states, steps, k - 1);
      PollingSurvivesIff(states[k - 1], steps[k - 1]);
    }
  }

  /** A rejection on the first poll stalls the effect: mounted, with nothing left that would poll. */
  lemma {:induction false} RejectionCanStall(options: Options) returns (states: seq<State>, steps: seq<Step>)
    ensures IsRun(states, steps) && |states| == 4 && states[3].mounted.Some? && !KeepsPolling(states[3])
  {
    steps := [SetUp(options), Fire(1), Reject(2)];
    var s1 := Next(INITIAL, steps[0]);
    assert 1 in s1.timers;
    var s2 := Next(s1, steps[1]);
    assert s2.flights == map[2 := Flight(Instance(0, options), true)];
    states := [INITIAL, s1, s2, Next(s2, steps[2])];
    assert states[3].timers == map[] && states[3].resuming == map[] && states[3].flights == map[];
    forall k | 0 <= k < |steps| ensures Enabled(states[k], steps[k]) && states[k + 1] == Next(states[k], steps[k]) {
      assert k == 0 || k == 1 || k == 2;
    }
  }

  /** A focus or visibility event brings a stalled effect back to polling. */
  lemma {:induction false} WindowEventsRevive(s: State, step: Step)
    requires Invariant(s) && (step.Focus? || step.VisibilityChange?)
    ensures KeepsPolling(Next(s, step))
  {
    if s.mounted.Some? {
      var i := s.mounted.value;
      if step.Focus? {
        HandlerArms(s, i, i.options.refreshOnFocus);
      } else {
        HandlerArms(s.(visible := step.visible), i, step.visible && i.options.refreshOnVisible);
      }
    }
  }
}
