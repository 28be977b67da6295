/** The firmware's conversation control: the device state machine, the main-loop handlers and the
tasks they schedule.

Other threads are visible in three ways: they request transitions at any time, even inside a handler
between its read of the state and its own transition (`race`), they schedule tasks, and the audio
channel opens and closes on its own.
*/
module DeviceControl {

  datatype DeviceState =
    | Unknown | Starting | WifiConfiguring | Idle | Connecting | Listening | Speaking
    | Notifying | Upgrading | Activating | AudioTesting | FatalError

  predicate IsValidTransition(from: DeviceState, to: DeviceState) {
    from == to ||
    match from
    case Unknown => to == Starting
    case Starting => to == WifiConfiguring || to == Activating
    case WifiConfiguring => to == Activating || to == AudioTesting
    case AudioTesting => to == WifiConfiguring
    case Activating => to == Upgrading || to == Idle || to == WifiConfiguring
    case Upgrading => to == Idle || to == Activating
    case Idle =>
      || to == Connecting || to == Listening || to == Speaking || to == Notifying
      || to == Activating || to == Upgrading || to == WifiConfiguring
    case Connecting => to == Idle || to == Listening
    case Listening => to == Speaking || to == Idle
    case Speaking => to == Listening || to == Idle
    case Notifying => to == Idle
    case FatalError => false
  }

  datatype ListeningMode = AutoStop | ManualStop | Realtime

  /** What the main task may be asked to run.  `Display` stands for every task that only draws,
      plays or sends. */
  datatype Task =
    | ContinueOpen(mode: ListeningMode) | ContinueWake
    | InvokeIfIdle | InvokeIfNotifying | ChannelClosed | CloseChannel
    | TtsStart | TtsStop | StartNotification(busy: bool, started: bool) | NotificationFinished(current: bool)
    | Display
  {
    predicate IsContinuation() {
      ContinueOpen? || ContinueWake?
    }
  }

  /** What the world decides while a handler runs: whether the channel opens, whether closing it
      reports back at once, and which transitions other threads slip in, before the handler's own
      transition and after it. */
  datatype World = World(opens: bool, reportsClose: bool, race: seq<DeviceState>, late: seq<DeviceState>)
  {
    /** Only the main task ever requests Connecting. */
    predicate Valid() {
      Connecting !in race && Connecting !in late
    }
  }

  datatype Control = Control(state: DeviceState, batch: seq<Task>, queue: seq<Task>, protocol: bool,
                             channelOpen: bool, mode: ListeningMode, defaultMode: ListeningMode)

  // ---- the reference transitions ----

  function Moved(state: DeviceState, to: DeviceState): DeviceState {
    if IsValidTransition(state, to) then to else state
  }

  function Raced(state: DeviceState, race: seq<DeviceState>): DeviceState {
    if race == [] then state else Moved(Raced(state, race[..|race| - 1]), race[|race| - 1])
  }

  function To(c: Control, to: DeviceState): Control {
    c.(state := Moved(c.state, to))
  }

  function Scheduled(c: Control, task: Task): Control {
    c.(queue := c.queue + [task])
  }

  function Closed(c: Control, w: World): Control {
    var closed := c.(channelOpen := false);
    if w.reportsClose then Scheduled(closed, ChannelClosed) else closed
  }

  function ListeningIn(c: Control, mode: ListeningMode): Control {
    To(c.(mode := mode), Listening)
  }

  function NotificationStopped(c: Control): Control {
    if c.state == Notifying then To(c, Idle) else c
  }

  function Interfered(c: Control, race: seq<DeviceState>): Control {
    c.(state := Raced(c.state, race))
  }

  /** A continuation: ignored unless still connecting; otherwise open the channel if needed. */
  function Continued(c: Control, mode: ListeningMode, w: World): Control {
    if c.state != Connecting then c
    else
      var c' := Interfered(c, w.race);
      if c'.channelOpen || w.opens then ListeningIn(c'.(channelOpen := true), mode) else To(c', Idle)
  }

  /** Start a conversation from idle: at once when the channel is open, else through Connecting. */
  function Begun(c: Control, mode: ListeningMode, w: World): Control {
    var c' := Interfered(c, w.race);
    if c'.channelOpen then ListeningIn(c', mode)
    else Scheduled(Interfered(To(c', Connecting), w.late), ContinueOpen(mode))
  }

  /** A wake word always passes through Connecting, and is dropped when that is refused. */
  function WakeBegun(c: Control, w: World): Control {
    var c' := Interfered(c, w.race);
    if !IsValidTransition(c'.state, Connecting) then c'
    else if c'.channelOpen then Continued(To(c', Connecting), c.defaultMode, w.(race := w.late))
    else Scheduled(Interfered(To(c', Connecting), w.late), ContinueWake)
  }

  datatype Event =
    | ToggleChat | StartListening | StopListening | WakeWordDetected
    | NetworkError | NetworkConnected | NetworkDisconnected | ActivationDone

  function Handled(c: Control, event: Event, w: World): Control {
    match event
    case ToggleChat =>
      var d := NotificationStopped(c);
      if d.state == Activating then To(Interfered(d, w.race), Idle)
      else if d.state == WifiConfiguring then To(Interfered(d, w.race), AudioTesting)
      else if d.state == AudioTesting then To(Interfered(d, w.race), WifiConfiguring)
      else if !d.protocol then d
      else if d.state == Idle then Begun(d, d.defaultMode, w)
      else if d.state == Listening then Closed(d, w)
      else d
    case StartListening =>
      var d := NotificationStopped(c);
      if d.state == Activating then To(Interfered(d, w.race), Idle)
      else if d.state == WifiConfiguring then To(Interfered(d, w.race), AudioTesting)
      else if !d.protocol then d
      else if d.state == Idle then Begun(d, ManualStop, w)
      else if d.state == Speaking then ListeningIn(Interfered(d, w.race), ManualStop)
      else d
    case StopListening =>
      if c.state == Notifying then NotificationStopped(c)
      else if c.state == AudioTesting then To(Interfered(c, w.race), WifiConfiguring)
      else if c.state == Listening then To(Interfered(c, w.race), Idle)
      else c
    case WakeWordDetected =>
      if !c.protocol then c
      else if c.state == Idle then WakeBegun(c, w)
      else if c.state == Notifying then WakeBegun(NotificationStopped(c), w)
      else if c.state == Speaking then ListeningIn(Interfered(c, w.race), c.defaultMode)
      else if c.state == Activating then To(Interfered(c, w.race), Idle)
      else c
    case NetworkError => To(Interfered(NotificationStopped(c), w.race), Idle)
    case NetworkConnected =>
      if c.state == Starting || c.state == WifiConfiguring then To(Interfered(c, w.race), Activating) else c
    case NetworkDisconnected =>
      var d := NotificationStopped(c);
      if c.state == Connecting || c.state == Listening || c.state == Speaking then Closed(d, w) else d
    case ActivationDone => To(Interfered(c, w.race), Idle)
  }

  function Ran(c: Control, task: Task, w: World): Control {
    match task
    case ContinueOpen(mode) => Continued(c, mode, w)
    case ContinueWake => Continued(c, c.defaultMode, w)
    case InvokeIfIdle => if c.state == Idle then WakeBegun(c, w) else c
    case InvokeIfNotifying => if c.state == Notifying then WakeBegun(NotificationStopped(c), w) else c
    case ChannelClosed => To(Interfered(c, w.race), Idle)
    case CloseChannel => if c.protocol then Closed(c, w) else c
    case TtsStart => To(Interfered(c, w.race), Speaking)
    case TtsStop =>
      if c.state == Speaking then To(Interfered(c, w.race), if c.mode == ManualStop then Idle else Listening) else c
    case StartNotification(busy, started) =>
      if c.state != Idle || busy then c
      else
        var d := To(Interfered(c, w.race), Notifying);
        if d.state == Notifying && !started then NotificationStopped(d) else d
    case NotificationFinished(current) => if current then NotificationStopped(c) else c
    case Display => c
  }

  /** One thing that can happen between main-loop actions, or one main-loop action. */
  datatype Action =
    | Handle(event: Event, world: World)
    | TakeBatch
    | RunTask(world: World)
    | Request(to: DeviceState)
    | Post(task: Task)
    | ChannelChanges(open: bool)
    | DefaultModeChanges(mode: ListeningMode)
    | ProtocolReady

  /** Main-loop handlers run between batches; other threads post anything but a continuation, and
      a wake-word invocation only once there is a protocol. */
  predicate Enabled(c: Control, a: Action) {
    match a
    case Handle(_, world) => c.batch == [] && world.Valid()
    case TakeBatch => c.batch == []
    case RunTask(world) => c.batch != [] && world.Valid()
    case Request(to) => to != Connecting
    case Post(task) => !task.IsContinuation() && (task.InvokeIfIdle? || task.InvokeIfNotifying? ==> c.protocol)
    case ChannelChanges(open) => open ==> c.protocol
    case DefaultModeChanges(_) => true
    case ProtocolReady => true
  }

  function Stepped(c: Control, a: Action): Control
    requires Enabled(c, a)
  {
    match a
    case Handle(event, world) => Handled(c, event, world)
    case TakeBatch => c.(batch := c.queue, queue := [])
    case RunTask(world) => Ran(c.(batch := c.batch[1..]), c.batch[0], world)
    case Request(to) => To(c, to)
    case Post(task) => Scheduled(c, task)
    case ChannelChanges(open) => c.(channelOpen := open)
    case DefaultModeChanges(mode) => c.(defaultMode := mode)
    case ProtocolReady => c.(protocol := true)
  }

  function Initial(defaultMode: ListeningMode): Control {
    Control(Unknown, [], [], false, false, AutoStop, defaultMode)
  }

  ghost predicate Runs(c: Control, actions: seq<Action>)
    decreases |actions|
  {
    actions == [] || (Enabled(c, actions[0]) && Runs(Stepped(c, actions[0]), actions[1..]))
  }

  function After(c: Control, actions: seq<Action>): Control
    requires Runs(c, actions)
    decreases |actions|
  {
    if actions == [] then c else After(Stepped(c, actions[0]), actions[1..])
  }

  // ---- the state graph ----

  /** No request of any kind enters or leaves the fatal state, and every other state has a way to
      idle. */
  lemma {:induction false} FatalErrorIsIsolated(state: DeviceState, race: seq<DeviceState>)
    ensures Raced(state, race) == FatalError <==> state == FatalError
  {
    if race != [] {
      FatalErrorIsIsolated(state, race[..|race| - 1]);
    }
  }

  ghost predicate CanReach(from: DeviceState, to: DeviceState) {
    exists requests :: Raced(from, requests) == to
  }

  lemma IdleIsReachable(state: DeviceState)
    ensures CanReach(state, Idle) <==> state != FatalError
  {
    if state == FatalError {
      forall path ensures Raced(state, path) != Idle {
        FatalErrorIsIsolated(state, path);
      }
    } else {
      LastRequest(state, [], Starting);
      LastRequest(state, [Starting], WifiConfiguring);
      LastRequest(state, [Starting, WifiConfiguring], Activating);
      LastRequest(state, [Starting, WifiConfiguring, Activating], Idle);
    }
  }

  lemma LastRequest(state: DeviceState, path: seq<DeviceState>, last: DeviceState)
    ensures Raced(state, path + [last]) == Moved(Raced(state, path), last)
  {
    hide IsValidTransition;
    assert (path + [last])[..|path|] == path;
  }

  /** Requests that never name Connecting can only leave it where it was or end it. */
  lemma {:induction false} RaceNeverConnects(state: DeviceState, race: seq<DeviceState>)
    requires Connecting !in race
    ensures Raced(state, race) == Connecting ==> state == Connecting
  {
    if race != [] {
      RaceNeverConnects(state, race[..|race| - 1]);
    }
  }

  // ---- no stuck Connecting ----

  function Pending(c: Control): seq<Task> {
    c.batch + c.queue
  }

  predicate WaitsAt(c: Control, k: nat) {
    k < |Pending(c)| && Pending(c)[k].IsContinuation()
  }

  predicate NeedsProtocol(task: Task) {
    task.InvokeIfIdle? || task.InvokeIfNotifying? || task.IsContinuation()
  }

  /** While connecting a continuation is queued, and nothing queued can miss the protocol. */
  ghost predicate Inv(c: Control) {
    && (c.state == Connecting ==> exists k :: WaitsAt(c, k))
    && (forall k :: 0 <= k < |Pending(c)| && NeedsProtocol(Pending(c)[k]) ==> c.protocol)
    && (c.channelOpen ==> c.protocol)
  }

  /** What any handler or task may do to the rest of the control state: at most one task is added,
      it needs the protocol only if there is one, and Connecting is entered only together with a
      continuation. */
  ghost predicate Extends(c: Control, c': Control) {
    && c'.batch == c.batch && c'.protocol == c.protocol
    && (c'.channelOpen ==> c.channelOpen || c.protocol)
    && (|| (c'.queue == c.queue && (c'.state == Connecting ==> c.state == Connecting))
        || (&& |c'.queue| == |c.queue| + 1 && c'.queue[..|c.queue|] == c.queue
            && (NeedsProtocol(c'.queue[|c.queue|]) ==> c.protocol)
            && (c'.state == Connecting ==> c.state == Connecting || c'.queue[|c.queue|].IsContinuation())))
  }

  /** The first clause is why Connecting cannot get stuck: whatever other threads request while the
      channel opens, the continuation ends it. */
  lemma ContinuationDecides(c: Control, mode: ListeningMode, w: World)
    requires c.state == Connecting && w.Valid()
    ensures Continued(c, mode, w).state != Connecting
    ensures w.race == [] ==> Continued(c, mode, w).state == if c.channelOpen || w.opens then Listening else Idle
    ensures Continued(c, mode, w).state == Listening && Listening !in w.race ==> c.channelOpen || w.opens
  {
    RaceNeverConnects(c.state, w.race);
    RaceEndsInRequest(c.state, w.race);
  }

  /** A race ends where it began or in a state someone requested. */
  lemma {:induction false} RaceEndsInRequest(state: DeviceState, race: seq<DeviceState>)
    ensures Raced(state, race) == state || Raced(state, race) in race
  {
    if race != [] {
      RaceEndsInRequest(state, race[..|race| - 1]);
    }
  }

  lemma ContinuedExtends(c: Control, mode: ListeningMode, w: World)
    requires w.Valid() && c.protocol
    ensures Extends(c, Continued(c, mode, w))
  {
    RaceNeverConnects(c.state, w.race);
  }

  lemma WakeBegunExtends(c: Control, w: World)
    requires w.Valid() && c.protocol && c.state == Idle
    ensures Extends(c, WakeBegun(c, w))
  {
    RaceNeverConnects(c.state, w.race);
    RaceNeverConnects(Connecting, w.late);
    var c' := Interfered(c, w.race);
    if IsValidTransition(c'.state, Connecting) && c'.channelOpen {
      ContinuedExtends(To(c', Connecting), c.defaultMode, w.(race := w.late));
      ContinuationDecides(To(c', Connecting), c.defaultMode, w.(race := w.late));
    }
  }

  lemma BegunExtends(c: Control, mode: ListeningMode, w: World)
    requires w.Valid() && c.protocol && c.state == Idle
    ensures Extends(c, Begun(c, mode, w))
  {
    RaceNeverConnects(c.state, w.race);
    RaceNeverConnects(Connecting, w.late);
  }

  lemma TalkExtends(c: Control, event: Event, w: World)
    requires w.Valid() && (event.ToggleChat? || event.StartListening?)
    ensures Extends(c, Handled(c, event, w))
  {
    hide Begun, Raced, IsValidTransition, Handled;
    RaceNeverConnects(NotificationStopped(c).state, w.race);
    if NotificationStopped(c).state == Idle && c.protocol {
      BegunExtends(NotificationStopped(c), c.defaultMode, w);
      BegunExtends(NotificationStopped(c), ManualStop, w);
    }
    TalkIs(c, event, w);
  }

  /** The talk handlers, spelled out. */
  lemma TalkIs(c: Control, event: Event, w: World)
    requires event.ToggleChat? || event.StartListening?
    ensures var d := NotificationStopped(c);
      Handled(c, event, w) ==
        if d.state == Activating then To(Interfered(d, w.race), Idle)
        else if d.state == WifiConfiguring then To(Interfered(d, w.race), AudioTesting)
        else if d.state == AudioTesting && event.ToggleChat? then To(Interfered(d, w.race), WifiConfiguring)
        else if !d.protocol then d
        else if d.state == Idle then Begun(d, if event.ToggleChat? then d.defaultMode else ManualStop, w)
        else if d.state == Listening && event.ToggleChat? then Closed(d, w)
        else if d.state == Speaking && event.StartListening? then ListeningIn(Interfered(d, w.race), ManualStop)
        else d
  {
    hide Begun, Raced, IsValidTransition, NotificationStopped;
  }

  lemma HandledExtends(c: Control, event: Event, w: World)
    requires w.Valid()
    ensures Extends(c, Handled(c, event, w))
  {
    if event.ToggleChat? || event.StartListening? {
      TalkExtends(c, event, w);
    } else {
      assert c.state == Notifying ==> NotificationStopped(c).state == Idle;
      hide WakeBegun, Raced, IsValidTransition;
      RaceNeverConnects(c.state, w.race);
      RaceNeverConnects(NotificationStopped(c).state, w.race);
      if event.WakeWordDetected? && c.protocol && (c.state == Idle || c.state == Notifying) {
        WakeBegunExtends(NotificationStopped(c), w);
      }
    }
  }

  /** The continuation an event leaves behind when it makes the device connect. */
  function ContinuationFor(event: Event, defaultMode: ListeningMode): seq<Task> {
    match event
    case ToggleChat => [ContinueOpen(defaultMode)]
    case StartListening => [ContinueOpen(ManualStop)]
    case WakeWordDetected => [ContinueWake]
    case _ => []
  }

  /** Only the two talk buttons and the wake word make a device connect, each leaving the continuation
      that carries its own listening mode. */
  lemma ConnectsWithItsContinuation(c: Control, event: Event, w: World)
    requires w.Valid() && c.state != Connecting && Handled(c, event, w).state == Connecting
    ensures Handled(c, event, w).queue == c.queue + ContinuationFor(event, c.defaultMode)
    ensures event.ToggleChat? || event.StartListening? || event.WakeWordDetected?
    ensures c.protocol && (c.state == Idle || c.state == Notifying)
  {
    hide Raced, IsValidTransition;
    var d := NotificationStopped(c);
    RaceNeverConnects(c.state, w.race);
    RaceNeverConnects(d.state, w.race);
    if event.ToggleChat? || event.StartListening? {
      TalkIs(c, event, w);
      hide Handled;
    } else if event.WakeWordDetected? {
      WakeConnectsWithItsContinuation(d, w);
      hide WakeBegun;
    }
  }

  lemma WakeConnectsWithItsContinuation(c: Control, w: World)
    requires w.Valid() && c.state != Connecting
    ensures WakeBegun(c, w).state == Connecting ==> WakeBegun(c, w).queue == c.queue + [ContinueWake]
  {
    RaceNeverConnects(c.state, w.race);
    var c' := Interfered(c, w.race);
    if IsValidTransition(c'.state, Connecting) && c'.channelOpen {
      ContinuationDecides(To(c', Connecting), c.defaultMode, w.(race := w.late));
    }
  }

  lemma RanExtends(c: Control, task: Task, w: World)
    requires w.Valid() && (NeedsProtocol(task) ==> c.protocol)
    ensures Extends(c, Ran(c, task, w))
    ensures c.state == Connecting && task.IsContinuation() ==> Ran(c, task, w).state != Connecting
  {
    RaceNeverConnects(c.state, w.race);
    match task
    case ContinueOpen(mode) =>
      ContinuedExtends(c, mode, w);
      if c.state == Connecting { ContinuationDecides(c, mode, w); }
    case ContinueWake =>
      ContinuedExtends(c, c.defaultMode, w);
      if c.state == Connecting { ContinuationDecides(c, c.defaultMode, w); }
    case InvokeIfIdle => if c.state == Idle { WakeBegunExtends(c, w); }
    case InvokeIfNotifying => if c.state == Notifying { WakeBegunExtends(NotificationStopped(c), w); }
    case _ =>
  }

  /** The state in which an action's handler or task starts, and the tasks pending there. */
  function Base(c: Control, a: Action): Control {
    if a.RunTask? && c.batch != [] then c.(batch := c.batch[1..])
    else if a.TakeBatch? then c.(batch := c.queue, queue := [])
    else c
  }

  lemma StepExtends(c: Control, a: Action)
    requires Inv(c) && Enabled(c, a)
    ensures a.ProtocolReady? || Extends(Base(c, a), Stepped(c, a))
    ensures a.RunTask? && c.state == Connecting && c.batch[0].IsContinuation() ==> Stepped(c, a).state != Connecting
  {
    match a
    case Handle(event, world) => HandledExtends(c, event, world);
    case RunTask(world) =>
      assert Pending(c)[0] == c.batch[0];
      RanExtends(Base(c, a), c.batch[0], world);
    case _ =>
  }

  /** Until it runs, a queued continuation only moves forward, one place for each task run. */
  lemma StepKeepsWaiting(c: Control, a: Action, k: nat)
    requires Inv(c) && Enabled(c, a) && WaitsAt(c, k)
    requires c.state == Connecting && Stepped(c, a).state == Connecting
    ensures a.RunTask? ==> k > 0 && WaitsAt(Stepped(c, a), k - 1)
    ensures !a.RunTask? ==> WaitsAt(Stepped(c, a), k)
  {
    StepExtends(c, a);
    if a.RunTask? {
      assert Pending(c)[0] == c.batch[0];
      assert Pending(Base(c, a))[k - 1] == Pending(c)[k];
    }
  }

  lemma ExtendingKeepsProtocol(c: Control, a: Action, c': Control, k: nat)
    requires Inv(c) && Enabled(c, a) && Extends(Base(c, a), c')
    requires k < |Pending(c')| && NeedsProtocol(Pending(c')[k])
    ensures c'.protocol
  {
    hide Stepped, Handled, Ran;
    var b := Base(c, a);
    if k < |Pending(b)| {
      assert Pending(c')[k] == Pending(b)[k] == Pending(c)[if a.RunTask? then k + 1 else k];
    } else {
      assert Pending(c')[k] == c'.queue[|b.queue|];
    }
  }

  lemma StepKeepsInv(c: Control, a: Action)
    requires Inv(c) && Enabled(c, a)
    ensures Inv(Stepped(c, a))
  {
    hide Handled, Ran;
    StepExtends(c, a);
    var c' := Stepped(c, a);
    if c'.state == Connecting {
      if c.state == Connecting {
        var k :| WaitsAt(c, k);
        StepKeepsWaiting(c, a, k);
      } else {
        assert WaitsAt(c', |Pending(c')| - 1);
      }
    }
    forall k | 0 <= k < |Pending(c')| && NeedsProtocol(Pending(c')[k]) ensures c'.protocol {
      if !a.ProtocolReady? {
        ExtendingKeepsProtocol(c, a, c', k);
      }
    }
  }

  lemma {:induction false} InvAlways(c: Control, actions: seq<Action>)
    requires Inv(c) && Runs(c, actions)
    ensures Inv(After(c, actions))
    decreases |actions|
  {
    if actions != [] {
      StepKeepsInv(c, actions[0]);
      InvAlways(Stepped(c, actions[0]), actions[1..]);
    }
  }

  /** Safety: in every run from start-up, under every interleaving with other threads, a device that
      is connecting has a continuation queued and the protocol that continuation will use. */
  lemma NoStuckConnecting(defaultMode: ListeningMode, actions: seq<Action>)
    requires Runs(Initial(defaultMode), actions)
    requires After(Initial(defaultMode), actions).state == Connecting
    ensures exists k :: WaitsAt(After(Initial(defaultMode), actions), k)
    ensures After(Initial(defaultMode), actions).protocol
  {
    InvAlways(Initial(defaultMode), actions);
  }

  ghost predicate StaysConnecting(c: Control, actions: seq<Action>)
    requires Runs(c, actions)
    decreases |actions|
  {
    c.state == Connecting && (actions == [] || StaysConnecting(Stepped(c, actions[0]), actions[1..]))
  }

  function TasksRun(actions: seq<Action>): nat {
    if actions == [] then 0 else (if actions[0].RunTask? then 1 else 0) + TasksRun(actions[1..])
  }

  /** Progress: however other threads interleave, a device that is still connecting has run only tasks
      that were queued ahead of its continuation. */
  lemma {:induction false} ConnectingIsBounded(c: Control, actions: seq<Action>, k: nat)
    requires Inv(c) && Runs(c, actions) && StaysConnecting(c, actions)
    requires WaitsAt(c, k)
    ensures TasksRun(actions) <= k < |c.batch| + |c.queue|
    decreases |actions|
  {
    if actions != [] {
      StepKeepsWaiting(c, actions[0], k);
      StepKeepsInv(c, actions[0]);
      ConnectingIsBounded(Stepped(c, actions[0]), actions[1..], if actions[0].RunTask? then k - 1 else k);
    }
  }

  /** Once as many tasks have run as were pending, the device has left Connecting at least once. */
  lemma ConnectingEnds(c: Control, actions: seq<Action>)
    requires Inv(c) && Runs(c, actions)
    requires TasksRun(actions) >= |c.batch| + |c.queue|
    ensures !StaysConnecting(c, actions)
  {
    if StaysConnecting(c, actions) {
      var k :| WaitsAt(c, k);
      ConnectingIsBounded(c, actions, k);
    }
  }

  // ---- one round of the scheduler ----

  function RunTasks(worlds: seq<World>): seq<Action> {
    if worlds == [] then [] else [RunTask(worlds[0])] + RunTasks(worlds[1..])
  }

  /** Tasks scheduled while a batch runs wait for the next round, so a round as long as the batch can
      always run and leaves the batch empty. */
  lemma {:induction false} BatchRuns(c: Control, worlds: seq<World>)
    requires Inv(c) && |c.batch| == |worlds| && forall w :: w in worlds ==> w.Valid()
    ensures Runs(c, RunTasks(worlds)) && TasksRun(RunTasks(worlds)) == |worlds|
    ensures After(c, RunTasks(worlds)).batch == []
    decreases |worlds|
  {
    if worlds != [] {
      var a := RunTask(worlds[0]);
      StepExtends(c, a);
      StepKeepsInv(c, a);
      BatchRuns(Stepped(c, a), worlds[1..]);
      assert RunTasks(worlds)[1..] == RunTasks(worlds[1..]);
    }
  }

  lemma RoundRuns(c: Control, worlds: seq<World>)
    requires Inv(c) && c.batch == [] && |c.queue| == |worlds| && forall w :: w in worlds ==> w.Valid()
    ensures Runs(Stepped(c, TakeBatch), RunTasks(worlds))
    ensures Runs(c, [TakeBatch] + RunTasks(worlds))
    ensures After(c, [TakeBatch] + RunTasks(worlds)) == After(Stepped(c, TakeBatch), RunTasks(worlds))
    ensures After(c, [TakeBatch] + RunTasks(worlds)).batch == []
    ensures Inv(After(c, [TakeBatch] + RunTasks(worlds)))
    ensures !StaysConnecting(c, [TakeBatch] + RunTasks(worlds))
  {
    hide Handled, Ran;
    var round := [TakeBatch] + RunTasks(worlds);
    assert round[1..] == RunTasks(worlds);
    StepKeepsInv(c, TakeBatch);
    BatchRuns(Stepped(c, TakeBatch), worlds);
    InvAlways(c, round);
    ConnectingEnds(c, round);
  }

  /** What every handler keeps when it is called from the main loop. */
  lemma HandledKeeps(c: Control, event: Event, w: World)
    requires Inv(c) && c.batch == [] && w.Valid()
    ensures Inv(Handled(c, event, w)) && Extends(c, Handled(c, event, w)) && Handled(c, event, w).batch == []
  {
    hide Handled;
    HandledExtends(c, event, w);
    StepKeepsInv(c, Handle(event, w));
    assert Stepped(c, Handle(event, w)) == Handled(c, event, w);
  }

  lemma {:induction false} RunsAppend(c: Control, a: seq<Action>, b: seq<Action>)
    requires Runs(c, a) && Runs(After(c, a), b)
    ensures Runs(c, a + b) && After(c, a + b) == After(After(c, a), b)
    decreases |a|
  {
    hide Stepped, Enabled;
    if a == [] {
      assert a + b == b;
    } else {
      assert (a + b)[1..] == a[1..] + b;
      RunsAppend(Stepped(c, a[0]), a[1..], b);
    }
  }

  lemma OneStepRuns(c: Control, a: Action)
    requires Enabled(c, a)
    ensures Runs(c, [a]) && After(c, [a]) == Stepped(c, a)
  {
    hide Enabled, Stepped;
    assert [a][1..] == [];
  }

  lemma NothingRuns(c: Control)
    ensures Runs(c, []) && After(c, []) == c
  {
  }
}
