/** Ordered shutdown of the server: the admission gate, the drain registry and any number of concurrent
shutdown callers, as a step system.

The registry publishes its session count after releasing its lock, so registering and leaving take two
visible steps each: one inside the lock, and one that publishes the size seen there. */
module Lifecycle {

  datatype DrainOutcome = Drained | DeadlineReached(remaining: nat)

  /** What one ordered shutdown observed. */
  datatype Report = Report(outcome: DrainOutcome, controlledCloses: nat, historyFlushed: bool)

  /** How far one call of the ordered shutdown has come. */
  datatype Caller =
    | NotCalled
    | ListeningCancelled
    | GateClosed
    | Draining(deadline: nat)
    | DeadlinePassed(deadline: nat, remaining: nat)
    | Flushing(deadline: nat, drain: DrainOutcome, closes: nat)
    | Flushed(report: Report)
    | Finished(report: Report)
  {
    predicate PastDrain() {
      Flushing? || Flushed? || Finished?
    }

    function Outcome(): DrainOutcome
      requires PastDrain()
    {
      if Flushing? then drain else report.outcome
    }

    function Closes(): nat
      requires PastDrain()
    {
      if Flushing? then closes else report.controlledCloses
    }
  }

  /** Where a session is: holding an identifier, in the map but not yet published (with the size to
      publish), live, out of the map but not yet published, or finished. */
  datatype Phase = Issued | Inserted(size: nat) | Live | Removed(size: nat) | Gone

  datatype State = State(
    grace: nat, now: nat, gateOpen: bool, listeningCancelled: bool, stoppingCancelled: bool,
    nextId: nat, phases: map<nat, Phase>, sessions: set<nat>, cancelled: set<nat>, published: nat,
    callers: seq<Caller>)
  {
    predicate Is(id: nat, phase: Phase) {
      id in phases && phases[id] == phase
    }

    predicate InMap(id: nat) {
      id in phases && (phases[id].Inserted? || phases[id].Live?)
    }

    predicate Unpublished(id: nat) {
      id in phases && (phases[id].Inserted? || phases[id].Removed?)
    }
  }

  function Initial(grace: nat, callers: nat): State {
    State(grace, 0, true, false, false, 1, map[], {}, {}, 0, seq(callers, _ => NotCalled))
  }

  datatype Action =
    | Tick(time: nat)
    | Allocate | Insert(id: nat) | PublishInsert(id: nat)
    | Remove(id: nat) | PublishRemove(id: nat)
    | CancelListening(c: nat) | CloseGate(c: nat) | StartDrain(c: nat)
    | ObserveZero(c: nat) | PassDeadline(c: nat) | ControlledCloseAll(c: nat)
    | FinishFlush(c: nat, flushed: bool) | Stop(c: nat)
  {
    predicate IsCallers() {
      !(Tick? || Allocate? || Insert? || PublishInsert? || Remove? || PublishRemove?)
    }

    /** The steps taken while holding the registry's lock. */
    predicate IsCritical() {
      Insert? || Remove?
    }

    predicate IsPublishing() {
      PublishInsert? || PublishRemove?
    }
  }

  predicate Enabled(s: State, a: Action) {
    && (a.IsCallers() ==> a.c < |s.callers|)
    && match a
       case Tick(_) => true
       case Allocate => true
       case Insert(id) => s.Is(id, Issued)
       case PublishInsert(id) => id in s.phases && s.phases[id].Inserted?
       case Remove(id) => s.Is(id, Live)
       case PublishRemove(id) => id in s.phases && s.phases[id].Removed?
       case CancelListening(c) => s.callers[c].NotCalled?
       case CloseGate(c) => s.callers[c].ListeningCancelled?
       case StartDrain(c) => s.callers[c].GateClosed?
       case ObserveZero(c) => s.callers[c].Draining? && s.published == 0
       case PassDeadline(c) => s.callers[c].Draining? && s.callers[c].deadline <= s.now && s.published > 0
       case ControlledCloseAll(c) => s.callers[c].DeadlinePassed?
       case FinishFlush(c, flushed) => s.callers[c].Flushing? && (flushed || s.callers[c].deadline <= s.now)
       case Stop(c) => s.callers[c].Flushed?
  }

  function Put(s: State, id: nat, phase: Phase): State {
    s.(phases := s.phases[id := phase])
  }

  function RegistryStepped(s: State, a: Action): State
    requires Enabled(s, a) && !a.IsCallers()
  {
    match a
    case Tick(time) => s.(now := s.now + time)
    case Allocate => Put(s, s.nextId, Issued).(nextId := s.nextId + 1)
    case Insert(id) =>
      var sessions := s.sessions + {id};
      Put(s, id, Inserted(|sessions|)).(sessions := sessions)
    case PublishInsert(id) => Put(s, id, Live).(published := s.phases[id].size)
    case Remove(id) =>
      var sessions := s.sessions - {id};
      if id !in s.sessions then Put(s, id, Gone)
      else Put(s, id, Removed(|sessions|)).(sessions := sessions)
    case PublishRemove(id) => Put(s, id, Gone).(published := s.phases[id].size)
  }

  /** What a step of caller `a.c` makes of that caller. */
  function CallerMoved(s: State, a: Action): Caller
    requires Enabled(s, a) && a.IsCallers()
  {
    var caller := s.callers[a.c];
    match a
    case CancelListening(_) => ListeningCancelled
    case CloseGate(_) => GateClosed
    case StartDrain(_) => Draining(s.now + s.grace)
    case ObserveZero(_) => Flushing(caller.deadline, Drained, 0)
    case PassDeadline(_) => DeadlinePassed(caller.deadline, s.published)
    case ControlledCloseAll(_) => Flushing(caller.deadline, DeadlineReached(caller.remaining), |s.sessions|)
    case FinishFlush(_, flushed) => Flushed(Report(caller.drain, caller.closes, flushed))
    case Stop(_) => Finished(caller.report)
  }

  function CallerStepped(s: State, a: Action): State
    requires Enabled(s, a) && a.IsCallers()
  {
    s.(listeningCancelled := s.listeningCancelled || a.CancelListening?,
       gateOpen := s.gateOpen && !a.CloseGate?,
       stoppingCancelled := s.stoppingCancelled || a.Stop?,
       cancelled := if a.ControlledCloseAll? then s.cancelled + s.sessions else s.cancelled,
       callers := s.callers[a.c := CallerMoved(s, a)])
  }

  function Stepped(s: State, a: Action): State
    requires Enabled(s, a)
  {
    if a.IsCallers() then CallerStepped(s, a) else RegistryStepped(s, a)
  }

  /** A finite run: its states and the steps between them. */
  datatype Run = Run(states: seq<State>, actions: seq<Action>)
  {
    ghost predicate Valid() {
      && |states| == |actions| + 1
      && states[0] == Initial(states[0].grace, |states[0].callers|)
      && forall i :: 0 <= i < |actions| ==> StepAt(i)
    }

    predicate StepAt(i: nat)
      requires i < |actions| && |states| == |actions| + 1
    {
      Enabled(states[i], actions[i]) && states[i + 1] == Stepped(states[i], actions[i])
    }
  }

  // ---- what every step keeps ----

  predicate CallerOrdered(s: State, caller: Caller) {
    && (!caller.NotCalled? ==> s.listeningCancelled)
    && (!caller.NotCalled? && !caller.ListeningCancelled? ==> !s.gateOpen)
  }

  /** The map holds exactly the sessions that are live or about to be, and no identifier is handed out
      twice. */
  ghost predicate SessionsAgree(s: State) {
    && (forall id: nat :: id in s.sessions <==> s.InMap(id))
    && (forall id :: id in s.phases ==> id < s.nextId)
  }

  predicate SignalledWereKnown(s: State) {
    forall id :: id in s.cancelled ==> id in s.phases
  }

  predicate CallersOrdered(s: State) {
    && (forall c :: 0 <= c < |s.callers| ==> CallerOrdered(s, s.callers[c]))
    && (s.stoppingCancelled <==> exists c :: 0 <= c < |s.callers| && s.callers[c].Finished?)
  }

  lemma RegistryStepKeepsSessions(s: State, a: Action)
    requires SessionsAgree(s) && Enabled(s, a) && !a.IsCallers() && !a.Tick?
    ensures SessionsAgree(RegistryStepped(s, a))
  {
    var s', changed := RegistryStepped(s, a), if a.Allocate? then s.nextId else a.id;
    forall id: nat ensures id in s'.sessions <==> s'.InMap(id) {
      if id != changed {
        assert id in s'.sessions <==> id in s.sessions;
        assert s'.InMap(id) <==> s.InMap(id);
      }
    }
  }

  lemma StepKeepsSessions(s: State, a: Action)
    requires SessionsAgree(s) && Enabled(s, a)
    ensures SessionsAgree(Stepped(s, a))
  {
    if !a.IsCallers() && !a.Tick? {
      RegistryStepKeepsSessions(s, a);
      hide SessionsAgree, RegistryStepped, Enabled;
    } else {
      hide CallerMoved, Enabled;
    }
  }

  lemma StepKeepsSignalled(s: State, a: Action)
    requires SessionsAgree(s) && SignalledWereKnown(s) && Enabled(s, a)
    ensures SignalledWereKnown(Stepped(s, a))
  {
    hide CallerMoved;
  }

  lemma StepKeepsCallers(s: State, a: Action)
    requires CallersOrdered(s) && Enabled(s, a)
    ensures CallersOrdered(Stepped(s, a))
  {
    hide SessionsAgree;
    var s' := Stepped(s, a);
    if a.IsCallers() {
      hide RegistryStepped, CallersOrdered;
      CallerStepKeepsOrder(s, a);
    }
  }

  lemma CallerStepKeepsOrder(s: State, a: Action)
    requires CallersOrdered(s) && Enabled(s, a) && a.IsCallers()
    ensures CallersOrdered(CallerStepped(s, a))
  {
    var s' := CallerStepped(s, a);
    assert CallerOrdered(s, s.callers[a.c]);
    forall c | 0 <= c < |s'.callers| ensures CallerOrdered(s', s'.callers[c]) {
      assert CallerOrdered(s, s.callers[c]);
    }
    if s.stoppingCancelled {
      var c :| 0 <= c < |s.callers| && s.callers[c].Finished?;
      assert s'.callers[c].Finished?;
    }
    if a.Stop? {
      assert s'.callers[a.c].Finished?;
    }
  }

  lemma {:induction false} AgreeAlways(r: Run, i: nat)
    requires r.Valid() && i < |r.states|
    ensures SessionsAgree(r.states[i]) && SignalledWereKnown(r.states[i]) && CallersOrdered(r.states[i])
  {
    hide Enabled, Stepped;
    if i > 0 {
      AgreeAlways(r, i - 1);
      assert r.StepAt(i - 1);
      StepKeepsSessions(r.states[i - 1], r.actions[i - 1]);
      StepKeepsSignalled(r.states[i - 1], r.actions[i - 1]);
      StepKeepsCallers(r.states[i - 1], r.actions[i - 1]);
    }
  }

  // ---- what a run never takes back ----

  predicate Later(s: State, t: State) {
    && t.grace == s.grace && |t.callers| == |s.callers| && s.now <= t.now
    && (t.gateOpen ==> s.gateOpen)
    && (s.listeningCancelled ==> t.listeningCancelled)
    && (s.stoppingCancelled ==> t.stoppingCancelled)
    && s.cancelled <= t.cancelled
  }

  lemma StepIsLater(s: State, a: Action)
    requires Enabled(s, a)
    ensures Later(s, Stepped(s, a))
  {
    hide CallerMoved;
    if a.IsCallers() {
      hide RegistryStepped, Enabled;
    } else {
      hide CallerStepped;
    }
  }

  lemma {:induction false} NothingIsTakenBack(r: Run, i: nat, j: nat)
    requires r.Valid() && i <= j < |r.states|
    ensures Later(r.states[i], r.states[j])
    decreases j
  {
    hide Stepped, Enabled;
    if i < j {
      NothingIsTakenBack(r, i, j - 1);
      assert r.StepAt(j - 1);
      StepIsLater(r.states[j - 1], r.actions[j - 1]);
    }
  }

  function ReportedCloses(r: Run, n: nat): nat
    requires |r.states| == |r.actions| + 1 && n <= |r.actions|
  {
    if n == 0 then 0
    else ReportedCloses(r, n - 1) + if r.actions[n - 1].CloseGate? && r.states[n - 1].gateOpen then 1 else 0
  }

  /** However many callers shut the server down, exactly one close reports the transition, and none
      does while the gate is open. */
  lemma {:induction false} OneCloseReports(r: Run, n: nat)
    requires r.Valid() && n <= |r.actions|
    ensures ReportedCloses(r, n) == if r.states[n].gateOpen then 0 else 1
  {
    if n > 0 {
      OneCloseReports(r, n - 1);
      assert r.StepAt(n - 1);
    }
  }

  // ---- the order of shutdown ----

  ghost predicate StartedAt(r: Run, j: nat, c: nat, deadline: nat)
    requires |r.states| == |r.actions| + 1 && j < |r.actions|
  {
    r.actions[j] == StartDrain(c) && deadline == r.states[j].now + r.states[j].grace
  }

  ghost predicate HasDeadline(r: Run, i: nat, c: nat, deadline: nat)
    requires |r.states| == |r.actions| + 1 && i <= |r.actions|
  {
    exists j :: 0 <= j < i && StartedAt(r, j, c, deadline)
  }

  /** Past its deadline the caller still read a positive count. */
  ghost predicate PassedAt(r: Run, j: nat, c: nat, remaining: nat)
    requires |r.states| == |r.actions| + 1 && j < |r.actions|
  {
    && r.actions[j] == PassDeadline(c) && r.states[j].published == remaining > 0
    && exists deadline: nat :: HasDeadline(r, j, c, deadline) && deadline <= r.states[j].now
  }

  /** What the caller's outcome rests on: a count of zero it observed, or a positive count it read no
      earlier than its deadline, followed by a controlled close of the reported number of sessions. */
  ghost predicate Evidence(r: Run, k: nat, c: nat, outcome: DrainOutcome, closes: nat)
    requires |r.states| == |r.actions| + 1 && k < |r.actions|
  {
    if outcome.Drained? then r.actions[k] == ObserveZero(c) && r.states[k].published == 0 && closes == 0
    else
      && r.actions[k] == ControlledCloseAll(c) && closes == |r.states[k].sessions|
      && exists j: nat :: j < k && PassedAt(r, j, c, outcome.remaining)
  }

  ghost predicate Accounted(r: Run, i: nat, c: nat, caller: Caller)
    requires |r.states| == |r.actions| + 1 && i <= |r.actions|
  {
    && (caller.Draining? || caller.DeadlinePassed? || caller.Flushing? ==> HasDeadline(r, i, c, caller.deadline))
    && (caller.DeadlinePassed? ==> exists j: nat :: j < i && PassedAt(r, j, c, caller.remaining))
    && (caller.PastDrain() ==> exists k: nat :: k < i && Evidence(r, k, c, caller.Outcome(), caller.Closes()))
    && ((caller.Flushed? || caller.Finished?) && !caller.report.historyFlushed ==>
          exists deadline: nat :: HasDeadline(r, i, c, deadline) && deadline <= r.states[i].now)
  }

  lemma DeadlineStays(r: Run, i: nat, c: nat, deadline: nat)
    requires |r.states| == |r.actions| + 1 && i < |r.actions| && HasDeadline(r, i, c, deadline)
    ensures HasDeadline(r, i + 1, c, deadline)
  {
    var j :| 0 <= j < i && StartedAt(r, j, c, deadline);
  }

  lemma OthersAreAccounted(r: Run, i: nat, c: nat, caller: Caller)
    requires r.Valid() && i < |r.actions| && Accounted(r, i, c, caller)
    ensures Accounted(r, i + 1, c, caller)
  {
    assert r.StepAt(i);
    StepIsLater(r.states[i], r.actions[i]);
    hide Stepped, Enabled, Evidence, PassedAt, HasDeadline, Run.Valid;
    if caller.Draining? || caller.DeadlinePassed? || caller.Flushing? {
      DeadlineStays(r, i, c, caller.deadline);
    }
    if (caller.Flushed? || caller.Finished?) && !caller.report.historyFlushed {
      var deadline: nat :| HasDeadline(r, i, c, deadline) && deadline <= r.states[i].now;
      DeadlineStays(r, i, c, deadline);
    }
  }

  lemma MoverIsAccounted(r: Run, i: nat)
    requires r.Valid() && i < |r.actions| && r.actions[i].IsCallers() && r.actions[i].c < |r.states[i].callers|
    requires |r.states[i + 1].callers| == |r.states[i].callers|
    requires Accounted(r, i, r.actions[i].c, r.states[i].callers[r.actions[i].c])
    ensures Accounted(r, i + 1, r.actions[i].c, r.states[i + 1].callers[r.actions[i].c])
  {
    assert r.StepAt(i);
    StepIsLater(r.states[i], r.actions[i]);
    hide RegistryStepped, HasDeadline, Run.Valid;
    var a := r.actions[i];
    var before, after := r.states[i].callers[a.c], r.states[i + 1].callers[a.c];
    assert after == CallerMoved(r.states[i], a);
    OthersAreAccounted(r, i, a.c, before);
    match a
    case StartDrain(c) => DeadlineStarts(r, i, c, after.deadline);
    case ObserveZero(c) => assert Evidence(r, i, c, after.Outcome(), after.Closes());
    case PassDeadline(c) => assert PassedAt(r, i, c, after.remaining);
    case ControlledCloseAll(c) => assert Evidence(r, i, c, after.Outcome(), after.Closes());
    case FinishFlush(c, flushed) =>
      assert before.PastDrain() && after.Outcome() == before.Outcome() && after.Closes() == before.Closes();
      assert exists k: nat :: k < i + 1 && Evidence(r, k, c, before.Outcome(), before.Closes());
      assert HasDeadline(r, i + 1, c, before.deadline);
      assert !flushed ==> before.deadline <= r.states[i + 1].now;
    case Stop(c) =>
      assert before.PastDrain() && after.Outcome() == before.Outcome() && after.Closes() == before.Closes();
    case _ =>
  }

  lemma DeadlineStarts(r: Run, i: nat, c: nat, deadline: nat)
    requires |r.states| == |r.actions| + 1 && i < |r.actions| && StartedAt(r, i, c, deadline)
    ensures HasDeadline(r, i + 1, c, deadline)
  {
  }

  lemma {:induction false} CallersAreAccounted(r: Run, i: nat, c: nat)
    requires r.Valid() && i < |r.states| && c < |r.states[i].callers|
    ensures Accounted(r, i, c, r.states[i].callers[c])
  {
    hide Accounted;
    if i == 0 {
      NotCalledIsAccounted(r, c);
    } else {
      assert r.StepAt(i - 1);
      StepIsLater(r.states[i - 1], r.actions[i - 1]);
      hide RegistryStepped, CallerMoved, Enabled;
      CallersAreAccounted(r, i - 1, c);
      if r.actions[i - 1].IsCallers() && r.actions[i - 1].c == c {
        MoverIsAccounted(r, i - 1);
      } else {
        RegistryStepsKeepCallers(r.states[i - 1], r.actions[i - 1], c);
        OthersAreAccounted(r, i - 1, c, r.states[i].callers[c]);
      }
    }
  }

  lemma NotCalledIsAccounted(r: Run, c: nat)
    requires |r.states| == |r.actions| + 1
    ensures Accounted(r, 0, c, NotCalled)
  {
  }

  lemma RegistryStepsKeepCallers(s: State, a: Action, c: nat)
    requires Enabled(s, a) && c < |s.callers| && !(a.IsCallers() && a.c == c)
    ensures c < |Stepped(s, a).callers| && Stepped(s, a).callers[c] == s.callers[c]
  {
    hide CallerMoved;
  }

  // ---- one caller's program ----

  /** The steps among `actions` that caller `c` took. */
  function StepsOf(actions: seq<Action>, c: nat): seq<Action> {
    if actions == [] then []
    else
      var last := actions[|actions| - 1];
      StepsOf(actions[..|actions| - 1], c) + if last.IsCallers() && last.c == c then [last] else []
  }

  /** What the caller must have done so far, in order. */
  function ProgramTo(caller: Caller, c: nat): seq<Action> {
    match caller
    case NotCalled => []
    case ListeningCancelled => [CancelListening(c)]
    case GateClosed => [CancelListening(c), CloseGate(c)]
    case Draining(_) => [CancelListening(c), CloseGate(c), StartDrain(c)]
    case DeadlinePassed(_, _) => DrainSteps(c) + [PassDeadline(c)]
    case Flushing(_, drain, _) => DrainSteps(c) + OutcomeSteps(drain, c)
    case Flushed(report) =>
      DrainSteps(c) + OutcomeSteps(report.outcome, c) + [FinishFlush(c, report.historyFlushed)]
    case Finished(report) =>
      DrainSteps(c) + OutcomeSteps(report.outcome, c) + [FinishFlush(c, report.historyFlushed), Stop(c)]
  }

  function DrainSteps(c: nat): seq<Action> {
    [CancelListening(c), CloseGate(c), StartDrain(c)]
  }

  function OutcomeSteps(outcome: DrainOutcome, c: nat): seq<Action> {
    if outcome.Drained? then [ObserveZero(c)] else [PassDeadline(c), ControlledCloseAll(c)]
  }

  lemma CallerStepExtendsProgram(s: State, a: Action)
    requires Enabled(s, a) && a.IsCallers()
    ensures ProgramTo(CallerMoved(s, a), a.c) == ProgramTo(s.callers[a.c], a.c) + [a]
  {
  }

  /** Whatever runs beside it, a caller takes exactly the steps of the shutdown in their order, and its
      report says which. */
  lemma {:induction false} CallerFollowsProgram(r: Run, i: nat, c: nat)
    requires r.Valid() && i < |r.states| && c < |r.states[i].callers|
    ensures StepsOf(r.actions[..i], c) == ProgramTo(r.states[i].callers[c], c)
  {
    hide ProgramTo;
    if i == 0 {
      assert ProgramTo(NotCalled, c) == [] by { NothingDoneYet(c); }
    } else {
      var s, a := r.states[i - 1], r.actions[i - 1];
      assert r.StepAt(i - 1);
      StepIsLater(s, a);
      CallerFollowsProgram(r, i - 1, c);
      hide RegistryStepped, CallerMoved;
      assert r.actions[..i][..i - 1] == r.actions[..i - 1];
      if a.IsCallers() && a.c == c {
        CallerStepExtendsProgram(s, a);
      } else {
        RegistryStepsKeepCallers(s, a, c);
        assert StepsOf(r.actions[..i], c) == StepsOf(r.actions[..i - 1], c) + [];
      }
    }
  }

  lemma NothingDoneYet(c: nat)
    ensures ProgramTo(NotCalled, c) == []
  {
  }

  /** The promise of an ordered shutdown, for every interleaving of sessions and callers: by the time
      the hard stop is raised the listener and the gate are closed, and some caller either observed a
      count of zero or, no earlier than its deadline, signalled every session then in the map. */
  lemma StopIsOrdered(r: Run, i: nat)
    requires r.Valid() && i < |r.states| && r.states[i].stoppingCancelled
    ensures r.states[i].listeningCancelled && !r.states[i].gateOpen
    ensures exists k: nat, c: nat, outcome, closes: nat ::
      && k < i && Evidence(r, k, c, outcome, closes)
      && (outcome.DeadlineReached? ==> r.states[k].sessions <= r.states[i].cancelled)
  {
    AgreeAlways(r, i);
    var s := r.states[i];
    var c: nat :| c < |s.callers| && s.callers[c].Finished?;
    assert CallerOrdered(s, s.callers[c]);
    CallersAreAccounted(r, i, c);
    var outcome, closes := s.callers[c].Outcome(), s.callers[c].Closes();
    var k: nat :| k < i && Evidence(r, k, c, outcome, closes);
    if outcome.DeadlineReached? {
      assert r.StepAt(k);
      assert r.states[k].sessions <= r.states[k + 1].cancelled;
      NothingIsTakenBack(r, k + 1, i);
    }
  }

  ghost predicate SignalledAt(r: Run, k: nat, id: nat)
    requires |r.states| == |r.actions| + 1 && k < |r.actions|
  {
    r.actions[k].ControlledCloseAll? && id in r.states[k].sessions
  }

  /** A session is signalled exactly when it was in the map at a controlled close. */
  lemma {:induction false} SignalledAtAControlledClose(r: Run, i: nat, id: nat)
    requires r.Valid() && i < |r.states|
    ensures id in r.states[i].cancelled <==> exists k :: 0 <= k < i && SignalledAt(r, k, id)
  {
    if i > 0 {
      SignalledAtAControlledClose(r, i - 1, id);
      assert r.StepAt(i - 1);
      if SignalledAt(r, i - 1, id) {
        assert id in r.states[i].cancelled;
      }
    }
  }

  predicate HasLeft(s: State, id: nat) {
    id in s.phases && (s.phases[id].Removed? || s.phases[id].Gone?)
  }

  lemma StepKeepsLeft(s: State, a: Action, id: nat)
    requires SessionsAgree(s) && Enabled(s, a) && HasLeft(s, id)
    ensures HasLeft(Stepped(s, a), id) && (id in Stepped(s, a).cancelled <==> id in s.cancelled)
  {
    assert id !in s.sessions && id < s.nextId;
    if a.IsCallers() {
      hide RegistryStepped, CallerMoved, Enabled;
    } else {
      RegistryStepKeepsLeft(s, a, id);
      hide CallerStepped, RegistryStepped;
    }
  }

  lemma RegistryStepKeepsLeft(s: State, a: Action, id: nat)
    requires id < s.nextId && Enabled(s, a) && !a.IsCallers() && HasLeft(s, id)
    ensures HasLeft(RegistryStepped(s, a), id) && RegistryStepped(s, a).cancelled == s.cancelled
  {
    if a.PublishRemove? && a.id == id {
      assert RegistryStepped(s, a).Is(id, Gone);
    } else if !a.Tick? {
      assert id != if a.Allocate? then s.nextId else a.id;
      assert RegistryStepped(s, a).Is(id, s.phases[id]);
    }
  }

  /** A session that left the map unsignalled is never signalled afterwards. */
  lemma {:induction false} LeftIsNeverSignalled(r: Run, i: nat, j: nat, id: nat)
    requires r.Valid() && i <= j < |r.states| && HasLeft(r.states[i], id)
    ensures HasLeft(r.states[j], id)
    ensures id in r.states[j].cancelled <==> id in r.states[i].cancelled
    decreases j
  {
    hide Stepped, Enabled, SessionsAgree, HasLeft;
    if i < j {
      LeftIsNeverSignalled(r, i, j - 1, id);
      AgreeAlways(r, j - 1);
      assert r.StepAt(j - 1);
      StepKeepsLeft(r.states[j - 1], r.actions[j - 1], id);
    }
  }

  // ---- the published count ----

  ghost predicate SizeSeen(r: Run, i: nat, size: nat)
    requires |r.states| == |r.actions| + 1 && i <= |r.actions|
  {
    exists j :: 0 <= j <= i && (j == 0 || r.actions[j - 1].IsCritical()) && |r.states[j].sessions| == size
  }

  /** Whatever the interleaving, a published count is the size of the map at the start or right after
      some step under the lock, and so is every count still to be published. */
  lemma {:induction false} CountsWereSizes(r: Run, i: nat)
    requires r.Valid() && i < |r.states|
    ensures SizeSeen(r, i, r.states[i].published)
    ensures forall id :: r.states[i].Unpublished(id) ==> SizeSeen(r, i, r.states[i].phases[id].size)
  {
    hide Enabled, Stepped;
    if i > 0 {
      var s, a, s' := r.states[i - 1], r.actions[i - 1], r.states[i];
      CountsWereSizes(r, i - 1);
      AgreeAlways(r, i - 1);
      assert r.StepAt(i - 1);
      StepCounts(s, a);
      SeenStaysSeen(r, i - 1);
      if a.IsCritical() {
        assert SizeSeen(r, i, |s'.sessions|);
      }
      assert SizeSeen(r, i, s'.published);
      forall id | s'.Unpublished(id) ensures SizeSeen(r, i, s'.phases[id].size) {
      }
    } else {
      assert SizeSeen(r, 0, 0);
    }
  }

  /** What a step does to the published count and to the counts still to be published. */
  ghost predicate CountsMoved(s: State, a: Action, s': State) {
    && (a.IsCritical() ==> s'.Unpublished(a.id) && s'.phases[a.id].size == |s'.sessions|)
    && (a.IsPublishing() ==> s.Unpublished(a.id) && s'.published == s.phases[a.id].size && !s'.Unpublished(a.id))
    && (!a.IsPublishing() ==> s'.published == s.published)
    && (!a.IsCritical() ==> s'.sessions == s.sessions)
    && forall id: nat :: !(a.IsCritical() || a.IsPublishing()) || id != a.id ==>
         && s'.Unpublished(id) == s.Unpublished(id)
         && (s.Unpublished(id) ==> s'.phases[id] == s.phases[id])
  }

  lemma StepCounts(s: State, a: Action)
    requires SessionsAgree(s) && Enabled(s, a)
    ensures CountsMoved(s, a, Stepped(s, a))
  {
    if a.IsCallers() {
      hide RegistryStepped, CallerMoved, Enabled;
    } else {
      RegistryStepCounts(s, a);
      hide CallerStepped, RegistryStepped, CountsMoved;
    }
  }

  /** Moving one session to another phase leaves the other sessions' counts alone. */
  lemma PutKeepsOthers(s: State, id: nat, phase: Phase, s': State)
    requires s'.phases == Put(s, id, phase).phases
    ensures forall other: nat :: other != id ==>
              && s'.Unpublished(other) == s.Unpublished(other)
              && (s.Unpublished(other) ==> s'.phases[other] == s.phases[other])
    ensures s'.Unpublished(id) <==> phase.Inserted? || phase.Removed?
    ensures s'.phases[id] == phase
  {
  }

  lemma PutMovesCounts(s: State, a: Action, s': State, id: nat, phase: Phase)
    requires s'.phases == s.phases[id := phase] && (a.IsCritical() || a.IsPublishing() ==> id == a.id)
    requires a.IsCritical() ==> (phase.Inserted? || phase.Removed?) && phase.size == |s'.sessions|
    requires if a.IsPublishing() then
               s.Unpublished(id) && s'.published == s.phases[id].size && (phase.Live? || phase.Gone?)
             else s'.published == s.published
    requires a.IsCritical() || (s'.sessions == s.sessions && (a.IsPublishing() || (!s.Unpublished(id) && phase.Issued?)))
    ensures CountsMoved(s, a, s')
  {
    PutKeepsOthers(s, id, phase, s');
    hide State.Unpublished;
  }

  lemma RegistryStepCounts(s: State, a: Action)
    requires SessionsAgree(s) && Enabled(s, a) && !a.IsCallers()
    ensures CountsMoved(s, a, RegistryStepped(s, a))
  {
    var s' := RegistryStepped(s, a);
    match a
    case Tick(_) =>
    case Allocate =>
      assert s.nextId !in s.phases;
      hide SessionsAgree, CountsMoved;
      PutMovesCounts(s, a, s', s.nextId, Issued);
    case Insert(id) =>
      hide SessionsAgree, CountsMoved;
      PutMovesCounts(s, a, s', id, Inserted(|s.sessions + {id}|));
    case Remove(id) =>
      assert s.InMap(id) && id in s.sessions;
      hide SessionsAgree, CountsMoved;
      PutMovesCounts(s, a, s', id, Removed(|s.sessions - {id}|));
    case PublishInsert(id) =>
      hide SessionsAgree, CountsMoved;
      PutMovesCounts(s, a, s', id, Live);
    case PublishRemove(id) =>
      hide SessionsAgree, CountsMoved;
      PutMovesCounts(s, a, s', id, Gone);
  }

  lemma SeenStaysSeen(r: Run, i: nat)
    requires r.Valid() && i < |r.actions|
    ensures forall size: nat :: SizeSeen(r, i, size) ==> SizeSeen(r, i + 1, size)
  {
    forall size: nat | SizeSeen(r, i, size) ensures SizeSeen(r, i + 1, size) {
      var j :| 0 <= j <= i && (j == 0 || r.actions[j - 1].IsCritical()) && |r.states[j].sessions| == size;
    }
  }

  /** No count is waiting to be published. */
  ghost predicate Quiet(s: State) {
    forall id: nat :: !s.Unpublished(id)
  }

  /** Each step under the lock is published before the next one: registering and leaving are atomic. */
  ghost predicate Atomic(r: Run)
    requires |r.states| == |r.actions| + 1
  {
    forall i :: 0 <= i < |r.actions| && r.actions[i].IsCritical() ==> Quiet(r.states[i])
  }

  ghost predicate OnlyUnpublished(s: State, id: nat) {
    s.Unpublished(id) && forall other: nat :: s.Unpublished(other) ==> other == id
  }

  ghost predicate CountAgrees(s: State) {
    || (Quiet(s) && s.published == |s.sessions|)
    || exists id :: && OnlyUnpublished(s, id) && s.phases[id].size == |s.sessions|
                    && s.published == if s.phases[id].Inserted? then |s.sessions| - 1 else |s.sessions| + 1
  }

  lemma StepKeepsCount(s: State, a: Action)
    requires SessionsAgree(s) && CountAgrees(s) && Enabled(s, a) && (a.IsCritical() ==> Quiet(s))
    ensures CountAgrees(Stepped(s, a))
  {
    StepCounts(s, a);
    var s' := Stepped(s, a);
    if a.IsCritical() {
      assert !s.Unpublished(a.id);
      assert OnlyUnpublished(s', a.id);
    } else if a.IsPublishing() {
      assert Quiet(s');
    } else if Quiet(s) {
      assert Quiet(s');
    } else {
      var id :| OnlyUnpublished(s, id) && s.phases[id].size == |s.sessions|
        && s.published == if s.phases[id].Inserted? then |s.sessions| - 1 else |s.sessions| + 1;
      assert OnlyUnpublished(s', id);
    }
  }

  lemma {:induction false} CountAlwaysAgrees(r: Run, i: nat)
    requires r.Valid() && Atomic(r) && i < |r.states|
    ensures SessionsAgree(r.states[i]) && CountAgrees(r.states[i])
  {
    AgreeAlways(r, i);
    if i > 0 {
      CountAlwaysAgrees(r, i - 1);
      assert r.StepAt(i - 1);
      StepKeepsCount(r.states[i - 1], r.actions[i - 1]);
    }
  }

  /** With atomic registration the published count is the number of sessions in the map, which are the
      live ones. */
  lemma AtomicCountIsExact(r: Run, i: nat)
    requires r.Valid() && Atomic(r) && i < |r.states| && Quiet(r.states[i])
    ensures r.states[i].published == |r.states[i].sessions|
    ensures forall id :: id in r.states[i].sessions <==> r.states[i].Is(id, Live)
  {
    CountAlwaysAgrees(r, i);
    forall id: nat ensures id in r.states[i].sessions <==> r.states[i].Is(id, Live) {
      assert !r.states[i].Unpublished(id);
    }
  }

  /** With atomic registration a drain ends only when no session is live. */
  lemma AtomicCountCoversLive(r: Run, i: nat, id: nat)
    requires r.Valid() && Atomic(r) && i < |r.states| && r.states[i].Is(id, Live)
    ensures r.states[i].published > 0
  {
    CountAlwaysAgrees(r, i);
    var s := r.states[i];
    assert id in s.sessions;
    if !Quiet(s) {
      var other :| OnlyUnpublished(s, other) && s.phases[other].size == |s.sessions|
        && s.published == if s.phases[other].Inserted? then |s.sessions| - 1 else |s.sessions| + 1;
      if s.phases[other].Inserted? {
        assert other in s.sessions - {id};
        assert |s.sessions - {id}| == |s.sessions| - 1;
      }
    }
  }

  // ---- when does the count come right? ----

  /** Nothing but publication happens. */
  ghost predicate OnlyPublishes(s: State, actions: seq<Action>)
    decreases |actions|
  {
    actions == [] ||
    (Enabled(s, actions[0]) && actions[0].IsPublishing() && OnlyPublishes(Stepped(s, actions[0]), actions[1..]))
  }

  ghost function AfterPublishing(s: State, actions: seq<Action>): State
    requires OnlyPublishes(s, actions)
    decreases |actions|
  {
    if actions == [] then s else AfterPublishing(Stepped(s, actions[0]), actions[1..])
  }

  /** However the counts still waiting are published, in the end the count is the size of the map. */
  ghost predicate CountComesRight(s: State) {
    forall actions: seq<Action> :: OnlyPublishes(s, actions) && Quiet(AfterPublishing(s, actions)) ==>
      AfterPublishing(s, actions).published == |s.sessions|
  }

  /** Every count still waiting is the size of the map; with none waiting, the published one is. */
  ghost predicate WaitingCountsAreCurrent(s: State) {
    if Quiet(s) then s.published == |s.sessions|
    else forall id: nat :: s.Unpublished(id) ==> s.phases[id].size == |s.sessions|
  }

  function PublicationOf(s: State, id: nat): Action
    requires s.Unpublished(id)
  {
    if s.phases[id].Inserted? then PublishInsert(id) else PublishRemove(id)
  }

  lemma PublishingStep(s: State, id: nat)
    requires s.Unpublished(id)
    ensures var a := PublicationOf(s, id);
      && Enabled(s, a) && a.IsPublishing() && a.id == id
      && Stepped(s, a).sessions == s.sessions && Stepped(s, a).published == s.phases[id].size
      && forall other: nat :: (Stepped(s, a).Unpublished(other) <==> other != id && s.Unpublished(other))
           && (other != id && other in s.phases ==> Stepped(s, a).Is(other, s.phases[other]))
  {
    hide CallerStepped;
  }

  lemma {:induction false} CurrentCountsComeRight(s: State, actions: seq<Action>)
    requires WaitingCountsAreCurrent(s) && OnlyPublishes(s, actions) && Quiet(AfterPublishing(s, actions))
    ensures AfterPublishing(s, actions).published == |s.sessions|
    decreases |actions|
  {
    if actions != [] {
      var a := actions[0];
      assert s.Unpublished(a.id) && PublicationOf(s, a.id) == a;
      PublishingStep(s, a.id);
      hide Stepped, Enabled;
      CurrentCountsComeRight(Stepped(s, a), actions[1..]);
    }
  }

  /** Publish everything that waits except `last`. */
  lemma {:induction false} PublishAllBut(s: State, last: nat, waiting: set<nat>) returns (actions: seq<Action>)
    requires s.Unpublished(last) && last !in waiting
    requires forall id: nat :: s.Unpublished(id) <==> id == last || id in waiting
    ensures OnlyPublishes(s, actions) && OnlyUnpublished(AfterPublishing(s, actions), last)
    ensures AfterPublishing(s, actions).phases[last] == s.phases[last]
    ensures AfterPublishing(s, actions).sessions == s.sessions
    decreases |waiting|
  {
    if waiting == {} {
      actions := [];
    } else {
      var id :| id in waiting;
      PublishingStep(s, id);
      var a := PublicationOf(s, id);
      hide Stepped, Enabled, PublicationOf;
      var rest := PublishAllBut(Stepped(s, a), last, waiting - {id});
      actions := [a] + rest;
      assert actions[1..] == rest;
    }
  }

  lemma {:induction false} OneMorePublished(s: State, actions: seq<Action>, a: Action)
    requires OnlyPublishes(s, actions) && Enabled(AfterPublishing(s, actions), a) && a.IsPublishing()
    ensures OnlyPublishes(s, actions + [a])
    ensures AfterPublishing(s, actions + [a]) == Stepped(AfterPublishing(s, actions), a)
    decreases |actions|
  {
    hide Stepped, Enabled;
    if actions == [] {
      assert [] + [a] == [a] && [a][1..] == [];
    } else {
      assert (actions + [a])[1..] == actions[1..] + [a];
      OneMorePublished(Stepped(s, actions[0]), actions[1..], a);
    }
  }

  /** Any one of the waiting counts may be the last to be published. */
  lemma PublishLast(s: State, last: nat) returns (actions: seq<Action>)
    requires s.Unpublished(last)
    ensures OnlyPublishes(s, actions) && Quiet(AfterPublishing(s, actions))
    ensures AfterPublishing(s, actions).published == s.phases[last].size
  {
    var waiting := set id | id in s.phases && s.Unpublished(id) && id != last;
    var others := PublishAllBut(s, last, waiting);
    var before := AfterPublishing(s, others);
    PublishingStep(before, last);
    OneMorePublished(s, others, PublicationOf(before, last));
    actions := others + [PublicationOf(before, last)];
  }

  /** The exact condition under which the published count becomes the number of sessions whatever the
      order of publication, with no assumption on how the state was reached. */
  lemma CountComesRightIff(s: State)
    ensures CountComesRight(s) <==> WaitingCountsAreCurrent(s)
  {
    hide State.Unpublished, Stepped, Enabled, OnlyPublishes, AfterPublishing;
    if WaitingCountsAreCurrent(s) {
      forall actions: seq<Action> | OnlyPublishes(s, actions) && Quiet(AfterPublishing(s, actions))
        ensures AfterPublishing(s, actions).published == |s.sessions|
      {
        CurrentCountsComeRight(s, actions);
      }
    } else {
      StaleCountCanWin(s);
    }
  }

  lemma StaleCountCanWin(s: State)
    requires !WaitingCountsAreCurrent(s)
    ensures !CountComesRight(s)
  {
    if Quiet(s) {
      var none: seq<Action> := [];
      assert OnlyPublishes(s, none) && AfterPublishing(s, none) == s;
    } else {
      var last: nat :| s.Unpublished(last) && s.phases[last].size != |s.sessions|;
      var actions := PublishLast(s, last);
      assert OnlyPublishes(s, actions);
    }
  }

  /** Atomic registration meets that condition in every state. */
  lemma AtomicCountComesRight(r: Run, i: nat)
    requires r.Valid() && Atomic(r) && i < |r.states|
    ensures CountComesRight(r.states[i])
  {
    CountAlwaysAgrees(r, i);
    CountComesRightIff(r.states[i]);
  }

  // ---- is every session either finished or signalled? ----

  /** No session is still registering. */
  predicate NoneRegistering(phases: map<nat, Phase>) {
    forall id :: id in phases ==> !phases[id].Issued? && !phases[id].Inserted?
  }

  /** Nobody registers once the gate is closed. */
  ghost predicate NoLateRegistration(r: Run) {
    forall i :: 0 <= i < |r.states| && !r.states[i].gateOpen ==> NoneRegistering(r.states[i].phases)
  }

  /** The session's registration was completed before step `i`, and after the gate had closed. */
  ghost predicate RegisteredLate(r: Run, i: nat, id: nat)
    requires |r.states| == |r.actions| + 1 && i <= |r.actions|
  {
    exists k: nat :: k < i && r.actions[k] == PublishInsert(id) && !r.states[k].gateOpen
  }

  lemma StepSignals(s: State, a: Action, c: nat, id: nat)
    requires SessionsAgree(s) && Enabled(s, a) && c < |s.callers|
    requires Stepped(s, a).callers[c].PastDrain() && Stepped(s, a).Is(id, Live)
    ensures s.Is(id, Live) || (a == PublishInsert(id) && s.callers[c].PastDrain())
    ensures s.callers[c].PastDrain() || s.published == 0 || id in Stepped(s, a).cancelled
  {
    if a.IsCallers() {
      hide RegistryStepped;
    } else {
      hide CallerStepped;
    }
  }

  /** With atomic registration, once a caller is past its drain every live session has been signalled,
      except those whose registration was completed after the gate had closed. */
  lemma {:induction false} LiveAreSignalled(r: Run, i: nat, c: nat, id: nat)
    requires r.Valid() && Atomic(r)
    requires i < |r.states| && c < |r.states[i].callers| && r.states[i].callers[c].PastDrain()
    requires r.states[i].Is(id, Live)
    ensures id in r.states[i].cancelled || RegisteredLate(r, i, id)
  {
    hide Stepped, Enabled, Atomic;
    if i > 0 {
      var s, a := r.states[i - 1], r.actions[i - 1];
      assert r.StepAt(i - 1);
      AgreeAlways(r, i - 1);
      StepIsLater(s, a);
      assert CallerOrdered(s, s.callers[c]);
      StepSignals(s, a, c, id);
      if s.Is(id, Live) {
        AtomicCountCoversLive(r, i - 1, id);
        if s.callers[c].PastDrain() {
          LiveAreSignalled(r, i - 1, c, id);
        }
      }
    }
  }

  /** If registration also ends with the gate, the hard stop abandons nobody who was not asked to close. */
  lemma EverySessionIsSignalled(r: Run, i: nat, id: nat)
    requires r.Valid() && Atomic(r) && NoLateRegistration(r)
    requires i < |r.states| && r.states[i].stoppingCancelled && r.states[i].Is(id, Live)
    ensures id in r.states[i].cancelled
  {
    AgreeAlways(r, i);
    var c: nat :| c < |r.states[i].callers| && r.states[i].callers[c].Finished?;
    LiveAreSignalled(r, i, c, id);
    NobodyRegisteredLate(r, i, id);
  }

  lemma NobodyRegisteredLate(r: Run, i: nat, id: nat)
    requires r.Valid() && NoLateRegistration(r) && i <= |r.actions|
    ensures !RegisteredLate(r, i, id)
  {
    forall k: nat | k < i ensures !(r.actions[k] == PublishInsert(id) && !r.states[k].gateOpen) {
      assert r.StepAt(k);
    }
  }

  function Last(r: Run): State
    requires r.states != []
  {
    r.states[|r.states| - 1]
  }

  lemma Then(r: Run, a: Action) returns (r': Run)
    requires r.Valid() && Enabled(Last(r), a)
    ensures r'.Valid() && Last(r') == Stepped(Last(r), a)
    ensures NoLateRegistration(r) && (Last(r').gateOpen || NoneRegistering(Last(r').phases)) ==> NoLateRegistration(r')
    ensures Atomic(r) && (a.IsCritical() ==> Quiet(Last(r))) ==> Atomic(r')
  {
    r' := Run(r.states + [Stepped(Last(r), a)], r.actions + [a]);
    forall i | 0 <= i < |r'.actions| ensures r'.StepAt(i) {
      if i < |r.actions| {
        assert r.StepAt(i);
      }
    }
  }

  function Open(nextId: nat, phases: map<nat, Phase>, sessions: set<nat>, published: nat): State {
    Initial(0, 1).(nextId := nextId, phases := phases, sessions := sessions, published := published)
  }

  predicate Leads(s: State, a: Action, s': State) {
    Enabled(s, a) && Stepped(s, a) == s'
  }

  lemma Reach(r: Run, a: Action, s: State) returns (r': Run)
    requires r.Valid() && NoLateRegistration(r) && Leads(Last(r), a, s) && s.gateOpen
    ensures r'.Valid() && NoLateRegistration(r') && Last(r') == s
    ensures Atomic(r) && !a.IsCritical() ==> Atomic(r')
  {
    r' := Then(r, a);
  }

  lemma FirstRegisters()
    ensures Leads(Open(1, map[], {}, 0), Allocate, Open(2, map[1 := Issued], {}, 0))
    ensures Leads(Open(2, map[1 := Issued], {}, 0), Insert(1), Open(2, map[1 := Inserted(1)], {1}, 0))
    ensures Leads(Open(2, map[1 := Inserted(1)], {1}, 0), PublishInsert(1), Open(2, map[1 := Live], {1}, 1))
  {
  }

  lemma FirstLeavesWhileSecondRegisters()
    ensures Leads(Open(2, map[1 := Live], {1}, 1), Allocate, Open(3, map[1 := Live, 2 := Issued], {1}, 1))
    ensures Leads(Open(3, map[1 := Live, 2 := Issued], {1}, 1), Remove(1),
                  Open(3, map[1 := Removed(0), 2 := Issued], {}, 1))
    ensures Leads(Open(3, map[1 := Removed(0), 2 := Issued], {}, 1), Insert(2),
                  Open(3, map[1 := Removed(0), 2 := Inserted(1)], {2}, 1))
  {
    assert {1} - {1} == {};
  }

  lemma CountsArePublishedOutOfOrder()
    ensures Leads(Open(3, map[1 := Removed(0), 2 := Inserted(1)], {2}, 1), PublishInsert(2),
                  Open(3, map[1 := Removed(0), 2 := Live], {2}, 1))
    ensures Leads(Open(3, map[1 := Removed(0), 2 := Live], {2}, 1), PublishRemove(1),
                  Open(3, map[1 := Gone, 2 := Live], {2}, 0))
  {
  }

  /** A run of the code's own, finer steps: session 1 leaves while session 2 registers, and the count
      seen first is published last. */
  lemma StaleCount() returns (r: Run)
    ensures r.Valid() && NoLateRegistration(r)
    ensures Last(r) == Open(3, map[1 := Gone, 2 := Live], {2}, 0)
  {
    r := Run([Initial(0, 1)], []);
    assert NoLateRegistration(r) && Last(r) == Open(1, map[], {}, 0);
    hide NoLateRegistration, Run.Valid, Last, Leads;
    FirstRegisters();
    r := Reach(r, Allocate, Open(2, map[1 := Issued], {}, 0));
    r := Reach(r, Insert(1), Open(2, map[1 := Inserted(1)], {1}, 0));
    r := Reach(r, PublishInsert(1), Open(2, map[1 := Live], {1}, 1));
    FirstLeavesWhileSecondRegisters();
    r := Reach(r, Allocate, Open(3, map[1 := Live, 2 := Issued], {1}, 1));
    r := Reach(r, Remove(1), Open(3, map[1 := Removed(0), 2 := Issued], {}, 1));
    r := Reach(r, Insert(2), Open(3, map[1 := Removed(0), 2 := Inserted(1)], {2}, 1));
    CountsArePublishedOutOfOrder();
    r := Reach(r, PublishInsert(2), Open(3, map[1 := Removed(0), 2 := Live], {2}, 1));
    r := Reach(r, PublishRemove(1), Open(3, map[1 := Gone, 2 := Live], {2}, 0));
  }

  /** The first caller's steps up to its drain. */
  lemma BeginDrain(r: Run) returns (r': Run)
    requires r.Valid() && Last(r).callers == [NotCalled]
    ensures r'.Valid() && Last(r') == Last(r).(listeningCancelled := true, gateOpen := false,
                                       callers := [Draining(Last(r).now + Last(r).grace)])
    ensures NoLateRegistration(r) && NoneRegistering(Last(r).phases) ==> NoLateRegistration(r')
    ensures Atomic(r) ==> Atomic(r')
  {
    hide NoLateRegistration, NoneRegistering, Atomic, Run.Valid, RegistryStepped;
    r' := Then(r, CancelListening(0));
    r' := Then(r', CloseGate(0));
    r' := Then(r', StartDrain(0));
  }

  /** And those from its flush to the hard stop. */
  lemma Finish(r: Run, outcome: DrainOutcome, closes: nat, flushed: bool) returns (r': Run)
    requires r.Valid() && Last(r).callers == [Flushing(0, outcome, closes)]
    ensures r'.Valid() && Last(r') == Last(r).(stoppingCancelled := true,
                                       callers := [Finished(Report(outcome, closes, flushed))])
    ensures NoLateRegistration(r) && NoneRegistering(Last(r).phases) ==> NoLateRegistration(r')
    ensures Atomic(r) ==> Atomic(r')
  {
    hide NoLateRegistration, NoneRegistering, Atomic, Run.Valid, RegistryStepped;
    r' := Then(r, FinishFlush(0, flushed));
    r' := Then(r', Stop(0));
  }

  /** Without atomicity the count can therefore be wrong for good: nothing is left to publish, it reads
      zero, and a session is live.  Shutdown then drains at once and raises the hard stop without ever
      asking that session to close. */
  lemma StaleCountAbandonsASession() returns (r: Run)
    ensures r.Valid() && NoLateRegistration(r) && Quiet(Last(r))
    ensures Last(r).published == 0 && Last(r).sessions == {2} && Last(r).Is(2, Live)
    ensures Last(r).stoppingCancelled && 2 !in Last(r).cancelled
  {
    r := StaleCount();
    assert NoneRegistering(Last(r).phases);
    hide NoLateRegistration, NoneRegistering, Run.Valid, RegistryStepped;
    r := BeginDrain(r);
    r := Then(r, ObserveZero(0));
    r := Finish(r, Drained, 0, true);
  }

  lemma LateDrain() returns (r: Run)
    ensures r.Valid() && Atomic(r)
    ensures Last(r) == Open(2, map[1 := Issued], {}, 0).(listeningCancelled := true, gateOpen := false,
                         callers := [Flushing(0, Drained, 0)])
  {
    FirstRegisters();
    r := Run([Initial(0, 1)], []);
    assert r.Valid() && Atomic(r) && NoLateRegistration(r) && Last(r) == Open(1, map[], {}, 0);
    hide Run.Valid, Atomic, NoLateRegistration, NoneRegistering, RegistryStepped;
    r := Reach(r, Allocate, Open(2, map[1 := Issued], {}, 0));
    hide Leads;
    r := BeginDrain(r);
    r := Then(r, ObserveZero(0));
  }

  /** Atomicity alone is not enough: a session that was already issued its identifier registers after
      the drain has ended, and the hard stop finds it live and never signalled. */
  lemma LateRegistrationIsAbandoned() returns (r: Run)
    ensures r.Valid() && Atomic(r) && Quiet(Last(r))
    ensures Last(r).stoppingCancelled && Last(r).Is(1, Live) && 1 !in Last(r).cancelled
  {
    r := LateDrain();
    assert Quiet(Last(r));
    hide Run.Valid, Atomic, NoLateRegistration, NoneRegistering;
    r := Then(r, Insert(1));
    r := Then(r, PublishInsert(1));
    r := Finish(r, Drained, 0, true);
  }


  // ---- causes, and a way to the end ----

  /** In every run each signal is up exactly when some caller has raised it. */
  lemma {:induction false} SignalsHaveCauses(r: Run, i: nat)
    requires r.Valid() && i < |r.states|
    ensures r.states[i].listeningCancelled <==> exists k :: 0 <= k < i && r.actions[k].CancelListening?
    ensures !r.states[i].gateOpen <==> exists k :: 0 <= k < i && r.actions[k].CloseGate?
    ensures r.states[i].stoppingCancelled <==> exists k :: 0 <= k < i && r.actions[k].Stop?
  {
    if i > 0 {
      SignalsHaveCauses(r, i - 1);
      assert r.StepAt(i - 1);
      hide CallerMoved, Enabled;
    }
  }

  ghost predicate Performs(s: State, path: seq<Action>)
    decreases |path|
  {
    path == [] || (Enabled(s, path[0]) && Performs(Stepped(s, path[0]), path[1..]))
  }

  function AfterPath(s: State, path: seq<Action>): State
    requires Performs(s, path)
    decreases |path|
  {
    if path == [] then s else AfterPath(Stepped(s, path[0]), path[1..])
  }

  /** The caller's next step once time allows it. */
  function OwnStep(s: State, c: nat): Action
    requires c < |s.callers|
  {
    match s.callers[c]
    case NotCalled => CancelListening(c)
    case ListeningCancelled => CloseGate(c)
    case GateClosed => StartDrain(c)
    case Draining(_) => if s.published == 0 then ObserveZero(c) else PassDeadline(c)
    case DeadlinePassed(_, _) => ControlledCloseAll(c)
    case Flushing(_, _, _) => FinishFlush(c, true)
    case Flushed(_) => Stop(c)
    case Finished(_) => Stop(c)
  }

  function StepsLeft(caller: Caller): nat {
    match caller
    case NotCalled => 7
    case ListeningCancelled => 6
    case GateClosed => 5
    case Draining(_) => 4
    case DeadlinePassed(_, _) => 3
    case Flushing(_, _, _) => 2
    case Flushed(_) => 1
    case Finished(_) => 0
  }

  /** Waiting until the caller's deadline, if that is what it waits for. */
  function Waited(s: State, c: nat): State
    requires c < |s.callers|
  {
    var caller := s.callers[c];
    if caller.Draining? && s.published > 0 && s.now < caller.deadline
    then Stepped(s, Tick(caller.deadline - s.now)) else s
  }

  lemma OwnStepAdvances(s: State, c: nat)
    requires c < |s.callers| && !s.callers[c].Finished?
    ensures var t := Waited(s, c); var a := OwnStep(t, c);
      && c < |t.callers| && t.callers[c] == s.callers[c] && Enabled(t, a) && a.IsCallers() && a.c == c
      && StepsLeft(Stepped(t, a).callers[c]) < StepsLeft(s.callers[c]) && |Stepped(t, a).callers| == |s.callers|
  {
  }

  /** Shutdown is never blocked: whatever sessions and other callers do or fail to do, from any state a
      caller comes to its end by its own steps and the passing of time alone. */
  lemma {:induction false} CallerCanFinish(s: State, c: nat) returns (path: seq<Action>)
    requires c < |s.callers|
    ensures Performs(s, path) && |AfterPath(s, path).callers| == |s.callers| && AfterPath(s, path).callers[c].Finished?
    ensures forall k :: 0 <= k < |path| ==> path[k].Tick? || (path[k].IsCallers() && path[k].c == c)
    decreases StepsLeft(s.callers[c])
  {
    if s.callers[c].Finished? {
      path := [];
    } else {
      OwnStepAdvances(s, c);
      var t := Waited(s, c);
      var a := OwnStep(t, c);
      var rest := CallerCanFinish(Stepped(t, a), c);
      path := [a] + rest;
      assert path[1..] == rest;
      hide Enabled, Stepped, OwnStep, StepsLeft;
      if t != s {
        path := [Tick(s.callers[c].deadline - s.now)] + path;
        assert path[1..] == [a] + rest;
        assert Enabled(s, path[0]) && Stepped(s, path[0]) == t by { TickIsWaiting(s, c); }
      }
    }
  }

  lemma TickIsWaiting(s: State, c: nat)
    requires c < |s.callers| && Waited(s, c) != s
    ensures s.callers[c].Draining? && s.now < s.callers[c].deadline
    ensures var a := Tick(s.callers[c].deadline - s.now); Enabled(s, a) && Stepped(s, a) == Waited(s, c)
  {
  }
}
