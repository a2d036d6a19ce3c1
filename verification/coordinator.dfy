/** The build coordinator of the watch mode: one loop that owns the
    `building` flag and handles exactly one input per iteration, either a
    unit "file changed" signal from the watchers or the boolean outcome of
    the build in flight. Because `select!` serialises both inputs onto that
    one loop, the coordinator is a sequential transition function, and an
    arbitrary interleaving of the two inputs is a trace of events. */
module Coordinator {

  /** The coordinator's only state. */
  datatype State = State(building: bool)

  /** One input of the loop: a change signal, or the outcome of a build
      (`true` when the compiler returned `Ok`). */
  datatype Event = FileChanged | BuildFinished(succeeded: bool)

  /** What the loop does in response: spawn one build on the thread pool, or
      report the outcome of a finished build to the operator. */
  datatype Action = Launch | Report(succeeded: bool)

  /** A state together with the actions produced on the way to it. */
  datatype Transition = Transition(state: State, actions: seq<Action>)

  /** The flag starts cleared: no build is in flight when watching begins. */
  const Init: State := State(false)

  /** The log line an action writes. */
  function Notice(a: Action): (r: string)
    ensures r == "Build complete!" <==> a == Report(true)
    ensures r == "Build failed!" <==> a == Report(false)
  {
    match a
    case Launch => "Building shader..."
    case Report(ok) => if ok then "Build complete!" else "Build failed!"
  }

  /** The number of build launches among some actions. */
  function Launches(acts: seq<Action>): nat
  {
    if |acts| == 0 then 0
    else Launches(acts[..|acts| - 1]) + (if acts[|acts| - 1].Launch? then 1 else 0)
  }

  /** The number of outcome reports among some actions. */
  function Reports(acts: seq<Action>): nat
  {
    if |acts| == 0 then 0
    else Reports(acts[..|acts| - 1]) + (if acts[|acts| - 1].Report? then 1 else 0)
  }

  /** The number of build outcomes among some events. */
  function Outcomes(trace: seq<Event>): nat
  {
    if |trace| == 0 then 0
    else Outcomes(trace[..|trace| - 1]) + (if trace[|trace| - 1].BuildFinished? then 1 else 0)
  }

  /** The number of change signals among some events. */
  function Changes(trace: seq<Event>): nat
  {
    if |trace| == 0 then 0
    else Changes(trace[..|trace| - 1]) + (if trace[|trace| - 1].FileChanged? then 1 else 0)
  }

  /** One iteration of the loop. A change while idle sets the flag and
      launches one build; a change while building is dropped, neither queued
      nor remembered; an outcome clears the flag and reports success or
      failure. The outcome arm does not look at the flag. */
  function Step(s: State, e: Event): (r: Transition)
    ensures Launches(r.actions) == (if e.FileChanged? && !s.building then 1 else 0)
    ensures Reports(r.actions) == (if e.BuildFinished? then 1 else 0)
    ensures |r.actions| <= 1
    ensures r.state.building <==> (e.FileChanged? && (s.building || Launches(r.actions) == 1))
    ensures e.FileChanged? && s.building ==> r == Transition(s, [])
    ensures e.BuildFinished? ==> r.actions == [Report(e.succeeded)]
  {
    match e
    case FileChanged =>
      if !s.building then Transition(State(true), [Launch])
      else Transition(s, [])
    case BuildFinished(ok) =>
      Transition(State(false), [Report(ok)])
  }

  /** The loop run over a finite trace of events from state `s`: the final
      state and every action taken, in order. */
  function Run(s: State, trace: seq<Event>): Transition
    decreases |trace|
  {
    if |trace| == 0 then Transition(s, [])
    else
      var prev := Run(s, trace[..|trace| - 1]);
      var last := Step(prev.state, trace[|trace| - 1]);
      Transition(last.state, prev.actions + last.actions)
  }

  /** A trace the source can produce from `s`: the executor sends an outcome
      only for a build the loop launched, so an outcome arrives only while a
      build is in flight. */
  predicate WellFormed(s: State, trace: seq<Event>)
    decreases |trace|
  {
    |trace| == 0 ||
    (WellFormed(s, trace[..|trace| - 1]) &&
     (trace[|trace| - 1].BuildFinished? ==> Run(s, trace[..|trace| - 1]).state.building))
  }

  /** The loop of `main`, written as the source writes it: one mutable flag,
      one event handled per iteration. */
  method CoordinatorLoop(trace: seq<Event>) returns (building: bool, actions: seq<Action>)
    ensures Transition(State(building), actions) == Run(Init, trace)
    ensures WellFormed(Init, trace) ==> Launches(actions) == Reports(actions) + (if building then 1 else 0)
    ensures Reports(actions) == Outcomes(trace)
    ensures Launches(actions) <= Changes(trace)
  {
    building := false;
    actions := [];
    var i := 0;
    while i < |trace|
      invariant 0 <= i <= |trace|
      invariant Transition(State(building), actions) == Run(Init, trace[..i])
    {
      assert trace[..i + 1][..i] == trace[..i];
      match trace[i] {
        case FileChanged =>
          if !building {
            building := true;
            actions := actions + [Launch];
          }
        case BuildFinished(ok) =>
          actions := actions + [Report(ok)];
          building := false;
      }
      i := i + 1;
    }
    assert trace[..i] == trace;
    if WellFormed(Init, trace) {
      SingleFlight(Init, trace);
    }
    ReportsMatchOutcomes(Init, trace);
    LaunchesBoundedByChanges(Init, trace);
  }

  lemma {:induction false} LaunchesAppend(a: seq<Action>, b: seq<Action>)
    ensures Launches(a + b) == Launches(a) + Launches(b)
    decreases |b|
  {
    if |b| == 0 {
      assert a + b == a;
    } else {
      assert (a + b)[..|a + b| - 1] == a + b[..|b| - 1];
      LaunchesAppend(a, b[..|b| - 1]);
    }
  }

  lemma {:induction false} ReportsAppend(a: seq<Action>, b: seq<Action>)
    ensures Reports(a + b) == Reports(a) + Reports(b)
    decreases |b|
  {
    if |b| == 0 {
      assert a + b == a;
    } else {
      assert (a + b)[..|a + b| - 1] == a + b[..|b| - 1];
      ReportsAppend(a, b[..|b| - 1]);
    }
  }

  /** Running two traces back to back is running their concatenation: the
      second picks up in the state the first ends in, and the actions are
      those of the first followed by those of the second. */
  lemma {:induction false} RunAppend(s: State, a: seq<Event>, b: seq<Event>)
    ensures var mid := Run(s, a);
      Run(s, a + b) == Transition(Run(mid.state, b).state, mid.actions + Run(mid.state, b).actions)
    decreases |b|
  {
    if |b| == 0 {
      assert a + b == a;
    } else {
      var b' := b[..|b| - 1];
      assert (a + b)[..|a + b| - 1] == a + b';
      assert (a + b)[|a + b| - 1] == b[|b| - 1];
      RunAppend(s, a, b');
    }
  }

  /** Single flight: along a well-formed trace the number of builds launched
      minus the number of outcomes reported is exactly the change of the
      flag, so from an idle start it is 1 while building and 0 when idle. */
  lemma {:induction false} SingleFlight(s: State, trace: seq<Event>)
    requires WellFormed(s, trace)
    ensures var r := Run(s, trace);
      Launches(r.actions) + (if s.building then 1 else 0) == Reports(r.actions) + (if r.state.building then 1 else 0)
    decreases |trace|
  {
    if |trace| > 0 {
      var prefix := trace[..|trace| - 1];
      SingleFlight(s, prefix);
      var prev := Run(s, prefix);
      var last := Step(prev.state, trace[|trace| - 1]);
      LaunchesAppend(prev.actions, last.actions);
      ReportsAppend(prev.actions, last.actions);
    }
  }

  /** The number of builds in flight after a run: launched but not yet
      reported. */
  function InFlight(r: Transition): int
  {
    Launches(r.actions) - Reports(r.actions)
  }

  /** Every prefix of a well-formed trace is well-formed. */
  lemma {:induction false} WellFormedPrefix(s: State, trace: seq<Event>, k: nat)
    requires WellFormed(s, trace)
    requires k <= |trace|
    ensures WellFormed(s, trace[..k])
    decreases |trace|
  {
    if k < |trace| {
      assert trace[..|trace| - 1][..k] == trace[..k];
      WellFormedPrefix(s, trace[..|trace| - 1], k);
    } else {
      assert trace[..k] == trace;
    }
  }

  /** At every point of a well-formed trace from the initial state, at most
      one build is in flight: launches minus reports is 0 or 1, and it is 1
      exactly while the flag is set. */
  lemma AtMostOneInFlight(trace: seq<Event>, k: nat)
    requires WellFormed(Init, trace)
    requires k <= |trace|
    ensures InFlight(Run(Init, trace[..k])) == (if Run(Init, trace[..k]).state.building then 1 else 0)
  {
    WellFormedPrefix(Init, trace, k);
    SingleFlight(Init, trace[..k]);
  }

  /** Every outcome is reported exactly once, success or failure. */
  lemma {:induction false} ReportsMatchOutcomes(s: State, trace: seq<Event>)
    ensures Reports(Run(s, trace).actions) == Outcomes(trace)
    decreases |trace|
  {
    if |trace| > 0 {
      var prefix := trace[..|trace| - 1];
      ReportsMatchOutcomes(s, prefix);
      var prev := Run(s, prefix);
      ReportsAppend(prev.actions, Step(prev.state, trace[|trace| - 1]).actions);
    }
  }

  /** No build is launched without a change signal. */
  lemma {:induction false} LaunchesBoundedByChanges(s: State, trace: seq<Event>)
    ensures Launches(Run(s, trace).actions) <= Changes(trace)
    decreases |trace|
  {
    if |trace| > 0 {
      var prefix := trace[..|trace| - 1];
      LaunchesBoundedByChanges(s, prefix);
      var prev := Run(s, prefix);
      LaunchesAppend(prev.actions, Step(prev.state, trace[|trace| - 1]).actions);
    }
  }

  /** Changes arriving while a build is in flight are dropped: a run of
      change signals leaves a building coordinator untouched and silent. */
  lemma {:induction false} ChangesDroppedWhileBuilding(s: State, trace: seq<Event>)
    requires s.building
    requires forall i :: 0 <= i < |trace| ==> trace[i].FileChanged?
    ensures Run(s, trace) == Transition(s, [])
    decreases |trace|
  {
    if |trace| > 0 {
      ChangesDroppedWhileBuilding(s, trace[..|trace| - 1]);
    }
  }

  /** Debounce: a burst of K >= 1 change signals reaching an idle
      coordinator, with no outcome in between, launches exactly one build and
      leaves the flag set. */
  lemma {:induction false} Debounce(s: State, trace: seq<Event>)
    requires !s.building
    requires |trace| >= 1
    requires forall i :: 0 <= i < |trace| ==> trace[i].FileChanged?
    ensures Run(s, trace) == Transition(State(true), [Launch])
    decreases |trace|
  {
    if |trace| == 1 {
      assert trace[..0] == [];
    } else {
      Debounce(s, trace[..|trace| - 1]);
    }
  }

  /** Responsiveness: once a build has finished, success or failure, the next
      change signal launches exactly one new build. */
  lemma RelaunchAfterOutcome(s: State, ok: bool)
    ensures Run(s, [BuildFinished(ok), FileChanged]) == Transition(State(true), [Report(ok), Launch])
  {
    var trace := [BuildFinished(ok), FileChanged];
    assert trace[..1] == [BuildFinished(ok)];
    assert trace[..1][..0] == [];
    assert Run(s, trace[..1]) == Transition(State(false), [Report(ok)]);
  }

  /** A burst of three changes from idle starts one build; when it fails the
      failure is reported and the coordinator is idle again, so a fourth
      change starts a second build. */
  lemma BurstThenFailureThenRebuild()
    ensures Run(Init, [FileChanged, FileChanged, FileChanged, BuildFinished(false), FileChanged])
      == Transition(State(true), [Launch, Report(false), Launch])
  {
    var trace := [FileChanged, FileChanged, FileChanged, BuildFinished(false), FileChanged];
    Debounce(Init, trace[..3]);
    assert trace[..4][..3] == trace[..3];
    assert trace[..5] == trace;
  }

  /** Debounce anywhere in a run: if the first `k` events of a trace leave
      the coordinator idle and the remaining K >= 1 events are all change
      signals, the burst launches exactly one build. */
  lemma DebounceAfter(s: State, trace: seq<Event>, k: nat)
    requires k < |trace|
    requires !Run(s, trace[..k]).state.building
    requires forall i :: k <= i < |trace| ==> trace[i].FileChanged?
    ensures Run(s, trace) == Transition(State(true), Run(s, trace[..k]).actions + [Launch])
  {
    assert trace[..k] + trace[k..] == trace;
    RunAppend(s, trace[..k], trace[k..]);
    Debounce(Run(s, trace[..k]).state, trace[k..]);
  }

  /** Dropping anywhere in a run: if the first `k` events of a trace leave a
      build in flight and the remaining events are all change signals, they
      change nothing. */
  lemma DroppedAfter(s: State, trace: seq<Event>, k: nat)
    requires k <= |trace|
    requires Run(s, trace[..k]).state.building
    requires forall i :: k <= i < |trace| ==> trace[i].FileChanged?
    ensures Run(s, trace) == Run(s, trace[..k])
  {
    var before := Run(s, trace[..k]);
    assert trace[..k] + trace[k..] == trace;
    RunAppend(s, trace[..k], trace[k..]);
    ChangesDroppedWhileBuilding(before.state, trace[k..]);
    assert before.actions + [] == before.actions;
  }

  /** Responsiveness anywhere in a run: after any history `p`, an outcome
      followed by a change reports the outcome and launches exactly one new
      build. */
  lemma RelaunchAfter(s: State, p: seq<Event>, ok: bool)
    ensures Run(s, p + [BuildFinished(ok), FileChanged])
      == Transition(State(true), Run(s, p).actions + [Report(ok), Launch])
  {
    var before := Run(s, p);
    RunAppend(s, p, [BuildFinished(ok), FileChanged]);
    RelaunchAfterOutcome(before.state, ok);
  }
}
