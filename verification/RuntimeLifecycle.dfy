/** The objects an ordered shutdown coordinates: the gate, the cancellation tokens, the drain registry
and the archival flush.  The registry's methods are tied to the steps of `Lifecycle`; each runs here
without interference, which is the atomic case there. */
module RuntimeLifecycle {
  import Lifecycle

  /** Time as the shutdown sees it: it passes only while somebody sleeps. */
  class Clock {
    var now: nat

    constructor ()
      ensures now == 0
    {
      now := 0;
    }

    method SleepUntil(time: nat)
      modifies this
      ensures now == Max(old(now), time)
    {
      now := Max(now, time);
    }
  }

  class AdmissionGate {
    var isOpen: bool
    ghost var closedAt: nat

    constructor Open()
      ensures isOpen
    {
      isOpen := true;
    }

    method Close(clock: Clock) returns (closed: bool)
      modifies this
      ensures !isOpen && closed == old(isOpen)
      ensures closedAt == if closed then clock.now else old(closedAt)
    {
      closed := isOpen;
      isOpen := false;
      if closed {
        closedAt := clock.now;
      }
    }
  }

  /** A token remembers when it was first cancelled. */
  class CancellationToken {
    var cancelled: bool
    ghost var cancelledAt: nat

    constructor ()
      ensures !cancelled
    {
      cancelled := false;
    }

    method Cancel(clock: Clock)
      modifies this
      ensures cancelled
      ensures cancelledAt == if old(cancelled) then old(cancelledAt) else clock.now
    {
      if !cancelled {
        cancelledAt := clock.now;
      }
      cancelled := true;
    }
  }

  /** The token was cancelled during the call, at `time`, or had been before it. */
  twostate predicate CancelledAt(token: CancellationToken, time: nat)
    reads token
  {
    token.cancelled && token.cancelledAt == if old(token.cancelled) then old(token.cancelledAt) else time
  }

  // ---- registering and leaving, as steps ----

  function Registered(s: Lifecycle.State): Lifecycle.State {
    var id := s.nextId;
    var issued := Lifecycle.Stepped(s, Lifecycle.Allocate);
    var inserted := Lifecycle.Stepped(issued, Lifecycle.Insert(id));
    Lifecycle.Stepped(inserted, Lifecycle.PublishInsert(id))
  }

  lemma RegisteredIsCounted(s: Lifecycle.State)
    requires Lifecycle.SessionsAgree(s) && Lifecycle.SignalledWereKnown(s)
    ensures Lifecycle.SessionsAgree(Registered(s)) && Lifecycle.SignalledWereKnown(Registered(s))
    ensures s.nextId !in s.sessions && s.nextId !in s.cancelled && Registered(s).Is(s.nextId, Lifecycle.Live)
    ensures Registered(s).sessions == s.sessions + {s.nextId} && Registered(s).nextId == s.nextId + 1
    ensures Registered(s).published == |s.sessions| + 1 && Registered(s).cancelled == s.cancelled
  {
    var id := s.nextId;
    var issued := Lifecycle.Stepped(s, Lifecycle.Allocate);
    Lifecycle.StepKeepsSessions(s, Lifecycle.Allocate);
    var inserted := Lifecycle.Stepped(issued, Lifecycle.Insert(id));
    Lifecycle.StepKeepsSessions(issued, Lifecycle.Insert(id));
    Lifecycle.StepKeepsSessions(inserted, Lifecycle.PublishInsert(id));
  }

  function Unregistered(s: Lifecycle.State, id: nat): Lifecycle.State
    requires s.Is(id, Lifecycle.Live) && id in s.sessions
  {
    var removed := Lifecycle.Stepped(s, Lifecycle.Remove(id));
    Lifecycle.Stepped(removed, Lifecycle.PublishRemove(id))
  }

  lemma UnregisteredIsCounted(s: Lifecycle.State, id: nat)
    requires s.Is(id, Lifecycle.Live) && id in s.sessions
    ensures var s' := Unregistered(s, id);
      && s'.sessions == s.sessions - {id} && s'.nextId == s.nextId && s'.published == |s.sessions - {id}|
      && s'.cancelled == s.cancelled && s'.Is(id, Lifecycle.Gone)
  {
  }

  ghost predicate Signalled(sessions: map<nat, CancellationToken>, cancelled: set<nat>)
    reads sessions.Values
  {
    forall id :: id in sessions ==> (sessions[id].cancelled <==> id in cancelled)
  }

  lemma NewTokenIsUnsignalled(sessions: map<nat, CancellationToken>, cancelled: set<nat>, id: nat, close: CancellationToken)
    requires Signalled(sessions, cancelled) && id !in cancelled && !close.cancelled
    ensures Signalled(sessions[id := close], cancelled)
  {
  }

  ghost predicate OwnTokens(sessions: map<nat, CancellationToken>) {
    forall i, j :: i in sessions && j in sessions && i != j ==> sessions[i] != sessions[j]
  }

  lemma NewTokenIsOwn(sessions: map<nat, CancellationToken>, id: nat, close: CancellationToken)
    requires OwnTokens(sessions) && forall i :: i in sessions ==> sessions[i] != close
    ensures OwnTokens(sessions[id := close])
    ensures id !in sessions ==>
      sessions[id := close].Keys == sessions.Keys + {id} && |sessions[id := close]| == |sessions.Keys| + 1
  {
    if id !in sessions {
      assert sessions[id := close].Keys == sessions.Keys + {id};
      assert |sessions[id := close]| == |sessions[id := close].Keys|;
    }
  }

  class DrainRegistry {
    var sessions: map<nat, CancellationToken>
    var nextId: nat
    var active: nat

    /** The registry is in state `s`: same sessions, same published count, and each session's own token
        is cancelled exactly when `s` says it was signalled. */
    ghost predicate Represents(s: Lifecycle.State)
      reads this, sessions.Values
    {
      && sessions.Keys == s.sessions && nextId == s.nextId && active == s.published
      && Signalled(sessions, s.cancelled)
      && OwnTokens(sessions)
    }

    constructor (grace: nat, callers: nat)
      ensures Represents(Lifecycle.Initial(grace, callers))
    {
      sessions := map[];
      nextId, active := 1, 0;
    }

    method Register(ghost s: Lifecycle.State) returns (id: nat, close: CancellationToken)
      requires Represents(s) && Lifecycle.SessionsAgree(s) && Lifecycle.SignalledWereKnown(s)
      modifies this
      ensures Represents(Registered(s))
      ensures id == old(nextId) && sessions == old(sessions)[id := close] && fresh(close) && !close.cancelled
      ensures active == |sessions|
    {
      hide Represents;
      close := new CancellationToken();
      id := Enter(close, s);
    }

    /** The part of registering under the lock, and the publication. */
    method Enter(close: CancellationToken, ghost s: Lifecycle.State) returns (id: nat)
      requires Represents(s) && Lifecycle.SessionsAgree(s) && Lifecycle.SignalledWereKnown(s)
      requires !close.cancelled && forall i :: i in sessions ==> sessions[i] != close
      modifies this
      ensures Represents(Registered(s))
      ensures id == old(nextId) && sessions == old(sessions)[id := close] && active == |sessions|
    {
      RegisteredIsCounted(s);
      hide Registered, OwnTokens, Signalled, Lifecycle.Stepped, Lifecycle.Enabled, Lifecycle.SessionsAgree,
        Lifecycle.SignalledWereKnown;
      id := nextId;
      NewTokenIsOwn(sessions, id, close);
      NewTokenIsUnsignalled(sessions, s.cancelled, id, close);
      nextId, sessions, active := nextId + 1, sessions[id := close], |sessions[id := close]|;
    }

    /** Leaving twice, or leaving without having registered, changes nothing. */
    method Unregister(id: nat, ghost s: Lifecycle.State)
      requires Represents(s) && Lifecycle.SessionsAgree(s) && (id in sessions ==> s.Is(id, Lifecycle.Live))
      modifies this
      ensures sessions == old(sessions) - {id} && nextId == old(nextId)
      ensures id in old(sessions) ==> active == |sessions| && Represents(Unregistered(s, id))
      ensures id !in old(sessions) ==> Represents(s)
    {
      if id !in sessions {
        return;
      }
      UnregisteredIsCounted(s, id);
      hide Unregistered, Lifecycle.Stepped, Lifecycle.Enabled, Lifecycle.SessionsAgree;
      sessions := sessions - {id};
      active := |sessions|;
      assert sessions.Keys == s.sessions - {id} && |sessions| == |sessions.Keys|;
    }

    /** Every session in the map is signalled, now, nobody else's token is touched, and the caller
        learns how many there were. */
    method ControlledCloseAll(clock: Clock, ghost s: Lifecycle.State) returns (closed: nat)
      requires Represents(s)
      modifies sessions.Values
      ensures closed == |s.sessions|
      ensures forall id :: id in sessions ==> CancelledAt(sessions[id], clock.now)
      ensures Represents(s.(cancelled := s.cancelled + s.sessions))
    {
      closed := |sessions|;
      assert |sessions| == |sessions.Keys|;
      var ids := sessions.Keys;
      while ids != {}
        invariant ids <= sessions.Keys
        invariant forall id :: id in sessions.Keys - ids ==> CancelledAt(sessions[id], clock.now)
        invariant forall id :: id in ids ==> unchanged(sessions[id])
        decreases |ids|
      {
        var id :| id in ids;
        sessions[id].Cancel(clock);
        ids := ids - {id};
      }
    }
  }

  const HISTORY_FLUSH_POLL := 20

  class HistoryWriterMetrics {
    /** Whether the writer holds no record, as time goes on. */
    const settledAt: nat -> bool
    var shutdownDrops: nat

    constructor (settledAt: nat -> bool)
      ensures this.settledAt == settledAt && shutdownDrops == 0
    {
      this.settledAt := settledAt;
      shutdownDrops := 0;
    }
  }

  function Max(a: nat, b: nat): nat {
    if a < b then b else a
  }

  /** When the flush looks for the `k`-th time: every poll interval, and a last time at the deadline. */
  function PollTime(start: nat, deadline: nat, k: nat): nat {
    if start + HISTORY_FLUSH_POLL * k <= deadline then start + HISTORY_FLUSH_POLL * k else Max(start, deadline)
  }

  /** One of the looks between `start` and the deadline finds the writer settled. */
  ghost predicate SettlesBetween(history: HistoryWriterMetrics, start: nat, deadline: nat) {
    exists k: nat :: history.settledAt(PollTime(start, deadline, k))
  }

  /** A writer that is settled at the deadline, or stays settled for 20 ms before it, is seen; one that
      never is settled until the deadline is not. */
  lemma SettledIsSeen(history: HistoryWriterMetrics, start: nat, deadline: nat, since: nat)
    requires start <= since <= deadline
    ensures history.settledAt(deadline) ==> SettlesBetween(history, start, deadline)
    ensures since + 19 <= deadline && (forall t :: since <= t <= since + 19 ==> history.settledAt(t)) ==>
              SettlesBetween(history, start, deadline)
    ensures (forall t :: start <= t <= deadline ==> !history.settledAt(t)) ==> !SettlesBetween(history, start, deadline)
  {
    assert PollTime(start, deadline, deadline + 1) == deadline;
    var k := (since - start + 19) / 20;
    assert since + 19 <= deadline ==> PollTime(start, deadline, k) == start + 20 * k <= since + 19;
    assert since <= start + 20 * k;
  }

  /** The manager of provider resources, as far as shutdown closes it. */
  class ProviderRuntimeManager {
    var closed: bool

    constructor ()
      ensures !closed
    {
      closed := false;
    }

    method Close()
      modifies this
      ensures closed
    {
      closed := true;
    }
  }

  /** A count of zero is read: at the start, at a wake-up before the deadline, or at the deadline. */
  ghost predicate ReadsZero(activeAt: nat -> nat, wakes: seq<nat>, start: nat, deadline: nat) {
    || activeAt(start) == 0 || activeAt(Max(start, deadline)) == 0
    || exists k :: 0 <= k < |wakes| && wakes[k] < deadline && activeAt(wakes[k]) == 0
  }

  predicate InOrder(start: nat, wakes: seq<nat>) {
    && (forall k :: 0 <= k < |wakes| ==> start <= wakes[k])
    && (forall j, k :: 0 <= j < k < |wakes| ==> wakes[j] <= wakes[k])
  }

  class RuntimeLifecycle {
    const clock: Clock
    const gate: AdmissionGate
    const drain: DrainRegistry
    const listening: CancellationToken
    const stopping: CancellationToken
    const grace: nat
    const history: HistoryWriterMetrics?
    const providers: ProviderRuntimeManager?

    constructor (clock: Clock, grace: nat, history: HistoryWriterMetrics?, providers: ProviderRuntimeManager?)
      ensures gate.isOpen && !listening.cancelled && !stopping.cancelled && OwnSignals()
      ensures drain.Represents(Lifecycle.Initial(grace, 0))
      ensures this.clock == clock && this.grace == grace && this.history == history && this.providers == providers
    {
      this.clock := clock;
      gate := new AdmissionGate.Open();
      drain := new DrainRegistry(grace, 0);
      listening := new CancellationToken();
      stopping := new CancellationToken();
      this.grace := grace;
      this.history := history;
      this.providers := providers;
    }

    /** The process's own signals are nobody's session token. */
    ghost predicate OwnSignals()
      reads drain
    {
      listening != stopping && {listening, stopping} !! drain.sessions.Values
    }

    method BeginShutdown() returns (closedGate: bool)
      modifies gate, listening, providers
      ensures CancelledAt(listening, clock.now) && !gate.isOpen && closedGate == old(gate.isOpen)
      ensures gate.closedAt == if closedGate then clock.now else old(gate.closedAt)
      ensures providers != null ==> providers.closed
    {
      listening.Cancel(clock);
      closedGate := gate.Close(clock);
      if providers != null {
        providers.Close();
      }
    }

    /** Waits for a count of zero.  `activeAt` is the published count as time goes on, and `wakes` are
        the times at which the watch wakes the waiter.  Drained exactly when zero is read, and then at
        the first such read. */
    method DrainUntil(deadline: nat, activeAt: nat -> nat, wakes: seq<nat>) returns (outcome: Lifecycle.DrainOutcome)
      requires InOrder(clock.now, wakes)
      modifies clock
      ensures old(clock.now) <= clock.now <= Max(old(clock.now), deadline)
      ensures if outcome.Drained? then activeAt(clock.now) == 0
              else clock.now == Max(old(clock.now), deadline) && outcome.remaining == activeAt(clock.now) > 0
      ensures outcome.Drained? <==> ReadsZero(activeAt, wakes, old(clock.now), deadline)
      ensures clock.now > old(clock.now) ==> activeAt(old(clock.now)) > 0
      ensures forall k :: 0 <= k < |wakes| && wakes[k] < clock.now ==> activeAt(wakes[k]) > 0
    {
      ghost var start := clock.now;
      if activeAt(clock.now) == 0 {
        return Lifecycle.Drained;
      }
      for n := 0 to |wakes|
        invariant start <= clock.now <= Max(start, deadline) && (n < |wakes| ==> clock.now <= wakes[n])
        invariant forall k :: 0 <= k < n ==> wakes[k] < deadline && activeAt(wakes[k]) != 0
      {
        if wakes[n] >= deadline {
          break;
        }
        clock.SleepUntil(wakes[n]);
        if activeAt(clock.now) == 0 {
          return Lifecycle.Drained;
        }
      }
      clock.SleepUntil(deadline);
      var remaining := activeAt(clock.now);
      outcome := if remaining == 0 then Lifecycle.Drained else Lifecycle.DeadlineReached(remaining);
    }

    /** The flush succeeds exactly when one of its looks finds the writer settled, stops at the first
        such look, never outlasts the deadline, and records a drop exactly when it fails. */
    method FlushUntil(deadline: nat) returns (flushed: bool)
      modifies history, clock
      ensures old(clock.now) <= clock.now <= Max(old(clock.now), deadline)
      ensures history == null ==> flushed && clock.now == old(clock.now)
      ensures history != null ==>
        && (flushed <==> SettlesBetween(history, old(clock.now), deadline))
        && (flushed ==> history.settledAt(clock.now))
        && (forall k: nat :: PollTime(old(clock.now), deadline, k) < clock.now ==>
              !history.settledAt(PollTime(old(clock.now), deadline, k)))
        && history.shutdownDrops == old(history.shutdownDrops) + if flushed then 0 else 1
    {
      if history == null {
        return true;
      }
      ghost var start := clock.now;
      ghost var looks: nat := 0;
      while true
        invariant start <= clock.now <= Max(start, deadline) && clock.now == PollTime(start, deadline, looks)
        invariant forall k: nat :: k < looks ==> !history.settledAt(PollTime(start, deadline, k))
        invariant forall k: nat :: PollTime(start, deadline, k) < clock.now ==> k < looks
        invariant history.shutdownDrops == old(history.shutdownDrops)
        decreases deadline - clock.now
      {
        if history.settledAt(clock.now) {
          return true;
        }
        var now := clock.now;
        if now >= deadline {
          history.shutdownDrops := history.shutdownDrops + 1;
          forall k: nat ensures !history.settledAt(PollTime(start, deadline, k)) {
            assert k >= looks ==> PollTime(start, deadline, k) == now;
          }
          return false;
        }
        clock.SleepUntil(now + if HISTORY_FLUSH_POLL < deadline - now then HISTORY_FLUSH_POLL else deadline - now);
        looks := looks + 1;
      }
    }

    /** The drain, and at the deadline a controlled close of every registered session. */
    method DrainOrClose(deadline: nat, activeAt: nat -> nat, wakes: seq<nat>, ghost s: Lifecycle.State)
      returns (outcome: Lifecycle.DrainOutcome, closes: nat)
      requires drain.Represents(s) && InOrder(clock.now, wakes)
      modifies clock, drain.sessions.Values
      ensures old(clock.now) <= clock.now <= Max(old(clock.now), deadline)
      ensures outcome.Drained? <==> ReadsZero(activeAt, wakes, old(clock.now), deadline)
      ensures outcome.Drained? ==>
                && activeAt(clock.now) == 0 && closes == 0 && drain.Represents(s)
                && forall id :: id in drain.sessions ==> unchanged(drain.sessions[id])
      ensures outcome.DeadlineReached? ==>
                && clock.now == Max(old(clock.now), deadline) && outcome.remaining == activeAt(clock.now) > 0
                && closes == |s.sessions| && drain.Represents(s.(cancelled := s.cancelled + s.sessions))
                && forall id :: id in drain.sessions ==> CancelledAt(drain.sessions[id], clock.now)
    {
      hide DrainRegistry.Represents, ReadsZero;
      closes := 0;
      outcome := DrainUntil(deadline, activeAt, wakes);
      if outcome.DeadlineReached? {
        closes := drain.ControlledCloseAll(clock, s);
      }
    }

    /** The whole ordered shutdown: at once no new work, then all waiting within one grace period, with a
        controlled close of every registered session when, and only when, the drain ended at the
        deadline, then the flush inside what the drain left of that period, and after it the hard stop. */
    method Shutdown(activeAt: nat -> nat, wakes: seq<nat>, ghost s: Lifecycle.State)
      returns (report: Lifecycle.Report, ghost drainEnd: nat)
      requires OwnSignals() && drain.Represents(s) && InOrder(clock.now, wakes)
      modifies clock, gate, listening, stopping, history, providers, drain.sessions.Values
      ensures old(clock.now) <= drainEnd <= clock.now <= old(clock.now) + grace
      ensures CancelledAt(listening, old(clock.now)) && CancelledAt(stopping, clock.now)
      ensures !gate.isOpen && gate.closedAt == if old(gate.isOpen) then old(clock.now) else old(gate.closedAt)
      ensures providers != null ==> providers.closed
      ensures report.outcome.Drained? <==> ReadsZero(activeAt, wakes, old(clock.now), old(clock.now) + grace)
      ensures report.outcome.Drained? ==>
                && activeAt(drainEnd) == 0 && report.controlledCloses == 0 && drain.Represents(s)
                && forall id :: id in drain.sessions ==> unchanged(drain.sessions[id])
      ensures report.outcome.DeadlineReached? ==>
                && drainEnd == old(clock.now) + grace && report.outcome.remaining == activeAt(drainEnd) > 0
                && report.controlledCloses == |s.sessions|
                && drain.Represents(s.(cancelled := s.cancelled + s.sessions))
                && forall id :: id in drain.sessions ==> CancelledAt(drain.sessions[id], drainEnd)
      ensures report.historyFlushed == (history == null || SettlesBetween(history, drainEnd, old(clock.now) + grace))
      ensures history != null ==>
                history.shutdownDrops == old(history.shutdownDrops) + if report.historyFlushed then 0 else 1
    {
      hide DrainRegistry.Represents, SettlesBetween, ReadsZero;
      var _ := BeginShutdown();
      var deadline := clock.now + grace;
      var outcome, closes := DrainOrClose(deadline, activeAt, wakes, s);
      drainEnd := clock.now;
      var flushed := FlushUntil(deadline);
      stopping.Cancel(clock);
      report := Lifecycle.Report(outcome, closes, flushed);
    }
  }
}
