/** The main task of the firmware: the object whose handlers and tasks drive the device state.  Each
method is tied to the reference transition of the same name in `DeviceControl`. */
module Application {
  import opened DeviceControl

  class DeviceStateMachine {
    var current: DeviceState

    constructor ()
      ensures current == Unknown
    {
      current := Unknown;
    }

    method TransitionTo(newState: DeviceState) returns (ok: bool)
      modifies this
      ensures ok <==> IsValidTransition(old(current), newState)
      ensures current == if ok then newState else old(current)
    {
      if current == newState {
        return true;
      }
      if !IsValidTransition(current, newState) {
        return false;
      }
      current := newState;
      return true;
    }
  }

  class Application {
    const machine: DeviceStateMachine
    var batch: seq<Task>
    var mainTasks: seq<Task>
    var protocol: bool
    var channelOpen: bool
    var listeningMode: ListeningMode
    var defaultListeningMode: ListeningMode

    function Model(): Control
      reads this, machine
    {
      Control(machine.current, batch, mainTasks, protocol, channelOpen, listeningMode, defaultListeningMode)
    }

    constructor (defaultMode: ListeningMode)
      ensures Model() == Initial(defaultMode) && fresh(machine)
    {
      machine := new DeviceStateMachine();
      batch, mainTasks := [], [];
      protocol, channelOpen := false, false;
      listeningMode, defaultListeningMode := AutoStop, defaultMode;
    }

    method SetDeviceState(newState: DeviceState) returns (ok: bool)
      modifies machine
      ensures ok <==> IsValidTransition(old(Model()).state, newState)
      ensures Model() == To(old(Model()), newState)
    {
      ok := machine.TransitionTo(newState);
    }

    /** What other threads request meanwhile. */
    method Yield(race: seq<DeviceState>)
      modifies machine
      ensures Model() == Interfered(old(Model()), race)
    {
      ghost var start := machine.current;
      for i := 0 to |race|
        invariant machine.current == Raced(start, race[..i])
      {
        assert race[..i + 1][..i] == race[..i];
        var _ := machine.TransitionTo(race[i]);
      }
      assert race[..|race|] == race;
    }

    method Schedule(task: Task)
      modifies this
      ensures Model() == Scheduled(old(Model()), task)
    {
      mainTasks := mainTasks + [task];
    }

    method CloseAudioChannel(w: World)
      modifies this
      ensures Model() == Closed(old(Model()), w)
    {
      channelOpen := false;
      if w.reportsClose {
        Schedule(ChannelClosed);
      }
    }

    method StopNotification()
      modifies machine
      ensures Model() == NotificationStopped(old(Model()))
    {
      if machine.current == Notifying {
        var _ := SetDeviceState(Idle);
      }
    }

    method SetListeningMode(mode: ListeningMode)
      modifies this, machine
      ensures Model() == ListeningIn(old(Model()), mode)
    {
      listeningMode := mode;
      var _ := SetDeviceState(Listening);
    }

    method ContinueOpenAudioChannel(mode: ListeningMode, w: World)
      modifies this, machine
      ensures Model() == Continued(old(Model()), mode, w)
    {
      if machine.current != Connecting {
        return;
      }
      Yield(w.race);
      if !channelOpen {
        if !w.opens {
          var _ := SetDeviceState(Idle);
          return;
        }
        channelOpen := true;
      }
      SetListeningMode(mode);
    }

    method ContinueWakeWordInvoke(w: World)
      modifies this, machine
      ensures Model() == Continued(old(Model()), old(defaultListeningMode), w)
    {
      if machine.current != Connecting {
        return;
      }
      Yield(w.race);
      if !channelOpen {
        if !w.opens {
          var _ := SetDeviceState(Idle);
          return;
        }
        channelOpen := true;
      }
      SetListeningMode(defaultListeningMode);
    }

    /** The part of the talk handlers that starts from idle. */
    method BeginListening(mode: ListeningMode, w: World)
      modifies this, machine
      ensures Model() == Begun(old(Model()), mode, w)
    {
      Yield(w.race);
      if !channelOpen {
        var _ := SetDeviceState(Connecting);
        Yield(w.late);
        Schedule(ContinueOpen(mode));
        return;
      }
      SetListeningMode(mode);
    }

    method BeginWakeWordInvoke(w: World)
      modifies this, machine
      ensures Model() == WakeBegun(old(Model()), w)
    {
      Yield(w.race);
      var connecting := SetDeviceState(Connecting);
      if !connecting {
        return;
      }
      if !channelOpen {
        Yield(w.late);
        Schedule(ContinueWake);
        return;
      }
      ContinueWakeWordInvoke(w.(race := w.late));
    }

    method Request(newState: DeviceState, w: World)
      modifies machine
      ensures Model() == To(Interfered(old(Model()), w.race), newState)
    {
      Yield(w.race);
      var _ := SetDeviceState(newState);
    }

    method HandleToggleChatEvent(w: World)
      requires Inv(Model()) && batch == [] && w.Valid()
      modifies this, machine
      ensures Model() == Handled(old(Model()), ToggleChat, w)
      ensures Inv(Model()) && batch == [] && Extends(old(Model()), Model())
      ensures old(machine.current) != Connecting && machine.current == Connecting ==>
                mainTasks == old(mainTasks) + [ContinueOpen(defaultListeningMode)]
    {
      if machine.current != Connecting && Handled(Model(), ToggleChat, w).state == Connecting {
        ConnectsWithItsContinuation(Model(), ToggleChat, w);
      }
      HandledKeeps(Model(), ToggleChat, w);
      hide Inv, Extends;
      var state := machine.current;
      if state == Notifying {
        StopNotification();
        state := Idle;
      }
      if state == Activating {
        Request(Idle, w);
        return;
      } else if state == WifiConfiguring {
        Request(AudioTesting, w);
        return;
      } else if state == AudioTesting {
        Request(WifiConfiguring, w);
        return;
      }
      if !protocol {
        return;
      }
      if state == Idle {
        BeginListening(defaultListeningMode, w);
      } else if state == Listening {
        CloseAudioChannel(w);
      }
    }

    method HandleStartListeningEvent(w: World)
      requires Inv(Model()) && batch == [] && w.Valid()
      modifies this, machine
      ensures Model() == Handled(old(Model()), StartListening, w)
      ensures Inv(Model()) && batch == [] && Extends(old(Model()), Model())
      ensures old(machine.current) != Connecting && machine.current == Connecting ==>
                mainTasks == old(mainTasks) + [ContinueOpen(ManualStop)]
    {
      if machine.current != Connecting && Handled(Model(), StartListening, w).state == Connecting {
        ConnectsWithItsContinuation(Model(), StartListening, w);
      }
      HandledKeeps(Model(), StartListening, w);
      hide Inv, Extends;
      var state := machine.current;
      if state == Notifying {
        StopNotification();
        state := Idle;
      }
      if state == Activating {
        Request(Idle, w);
        return;
      } else if state == WifiConfiguring {
        Request(AudioTesting, w);
        return;
      }
      if !protocol {
        return;
      }
      if state == Idle {
        BeginListening(ManualStop, w);
      } else if state == Speaking {
        Yield(w.race);
        SetListeningMode(ManualStop);
      }
    }

    method HandleStopListeningEvent(w: World)
      requires Inv(Model()) && batch == [] && w.Valid()
      modifies this, machine
      ensures Model() == Handled(old(Model()), StopListening, w)
      ensures Inv(Model()) && batch == [] && Extends(old(Model()), Model())
      ensures w.race == [] ==> machine.current !in {Listening, Notifying, AudioTesting}
      ensures mainTasks == old(mainTasks)
    {
      HandledKeeps(Model(), StopListening, w);
      hide Inv, Extends;
      var state := machine.current;
      if state == Notifying {
        StopNotification();
      } else if state == AudioTesting {
        Request(WifiConfiguring, w);
      } else if state == Listening {
        Request(Idle, w);
      }
    }

    method HandleWakeWordDetectedEvent(w: World)
      requires Inv(Model()) && batch == [] && w.Valid()
      modifies this, machine
      ensures Model() == Handled(old(Model()), WakeWordDetected, w)
      ensures Inv(Model()) && batch == [] && Extends(old(Model()), Model())
      ensures old(machine.current) != Connecting && machine.current == Connecting ==>
                mainTasks == old(mainTasks) + [ContinueWake]
    {
      if machine.current != Connecting && Handled(Model(), WakeWordDetected, w).state == Connecting {
        ConnectsWithItsContinuation(Model(), WakeWordDetected, w);
      }
      HandledKeeps(Model(), WakeWordDetected, w);
      hide Inv, Extends;
      if !protocol {
        return;
      }
      var state := machine.current;
      if state == Idle {
        BeginWakeWordInvoke(w);
      } else if state == Notifying {
        StopNotification();
        BeginWakeWordInvoke(w);
      } else if state == Speaking {
        Yield(w.race);
        SetListeningMode(defaultListeningMode);
      } else if state == Activating {
        Request(Idle, w);
      }
    }

    method HandleNetworkConnectedEvent(w: World)
      requires Inv(Model()) && batch == [] && w.Valid()
      modifies this, machine
      ensures Model() == Handled(old(Model()), NetworkConnected, w)
      ensures Inv(Model()) && batch == [] && Extends(old(Model()), Model())
      ensures w.race == [] ==> machine.current !in {Starting, WifiConfiguring}
      ensures mainTasks == old(mainTasks)
    {
      HandledKeeps(Model(), NetworkConnected, w);
      hide Inv, Extends;
      var state := machine.current;
      if state == Starting || state == WifiConfiguring {
        Request(Activating, w);
      }
    }

    method HandleNetworkDisconnectedEvent(w: World)
      requires Inv(Model()) && batch == [] && w.Valid()
      modifies this, machine
      ensures Model() == Handled(old(Model()), NetworkDisconnected, w)
      ensures Inv(Model()) && batch == [] && Extends(old(Model()), Model())
      ensures old(machine.current) in {Connecting, Listening, Speaking} ==> !channelOpen
      ensures machine.current == if old(machine.current) == Notifying then Idle else old(machine.current)
    {
      HandledKeeps(Model(), NetworkDisconnected, w);
      hide Inv, Extends;
      var state := machine.current;
      if state == Notifying {
        StopNotification();
      }
      if state == Connecting || state == Listening || state == Speaking {
        CloseAudioChannel(w);
      }
    }

    method HandleErrorEvent(w: World)
      requires Inv(Model()) && batch == [] && w.Valid()
      modifies this, machine
      ensures Model() == Handled(old(Model()), NetworkError, w)
      ensures Inv(Model()) && batch == [] && Extends(old(Model()), Model())
      ensures w.race == [] && IsValidTransition(old(machine.current), Idle) ==> machine.current == Idle
      ensures mainTasks == old(mainTasks)
    {
      HandledKeeps(Model(), NetworkError, w);
      hide Inv, Extends;
      if machine.current == Notifying {
        StopNotification();
      }
      Request(Idle, w);
    }

    method HandleActivationDoneEvent(w: World)
      requires Inv(Model()) && batch == [] && w.Valid()
      modifies this, machine
      ensures Model() == Handled(old(Model()), ActivationDone, w)
      ensures Inv(Model()) && batch == [] && Extends(old(Model()), Model())
      ensures w.race == [] && old(machine.current) == Activating ==> machine.current == Idle
      ensures mainTasks == old(mainTasks)
    {
      HandledKeeps(Model(), ActivationDone, w);
      hide Inv, Extends;
      Request(Idle, w);
    }

    method StartNotificationPlayback(busy: bool, started: bool, w: World)
      modifies this, machine
      ensures Model() == Ran(old(Model()), StartNotification(busy, started), w)
    {
      if machine.current != Idle || busy {
        return;
      }
      Yield(w.race);
      var notifying := SetDeviceState(Notifying);
      if !notifying {
        return;
      }
      if !started {
        StopNotification();
      }
    }

    method Execute(task: Task, w: World)
      modifies this, machine
      ensures Model() == Ran(old(Model()), task, w)
    {
      match task
      case ContinueOpen(mode) => ContinueOpenAudioChannel(mode, w);
      case ContinueWake => ContinueWakeWordInvoke(w);
      case InvokeIfIdle =>
        if machine.current == Idle {
          BeginWakeWordInvoke(w);
        }
      case InvokeIfNotifying =>
        if machine.current == Notifying {
          StopNotification();
          BeginWakeWordInvoke(w);
        }
      case ChannelClosed => Request(Idle, w);
      case CloseChannel =>
        if protocol {
          CloseAudioChannel(w);
        }
      case TtsStart => Request(Speaking, w);
      case TtsStop =>
        if machine.current == Speaking {
          Request(if listeningMode == ManualStop then Idle else Listening, w);
        }
      case StartNotification(busy, started) => StartNotificationPlayback(busy, started, w);
      case NotificationFinished(current) =>
        if current {
          StopNotification();
        }
      case Display =>
    }

    method RunTask(w: World)
      requires batch != [] && w.Valid()
      modifies this, machine
      ensures Model() == Stepped(old(Model()), Action.RunTask(w))
    {
      var task := batch[0];
      batch := batch[1..];
      Execute(task, w);
    }

    /** The scheduler's part of one turn of the main loop: everything queued when it starts runs once
        and in order, and what is scheduled meanwhile is left for the next turn. */
    method RunScheduledTasks(worlds: seq<World>)
      requires Inv(Model()) && batch == []
      requires |worlds| == |mainTasks| && forall w :: w in worlds ==> w.Valid()
      modifies this, machine
      ensures Runs(old(Model()), [TakeBatch] + RunTasks(worlds))
      ensures Model() == After(old(Model()), [TakeBatch] + RunTasks(worlds))
      ensures Inv(Model()) && batch == []
      ensures old(machine.current) == Connecting ==> !StaysConnecting(old(Model()), [TakeBatch] + RunTasks(worlds))
    {
      hide Ran, Handled, Inv;
      ghost var before := Model();
      batch, mainTasks := mainTasks, [];
      RoundRuns(before, worlds);
      ghost var end := After(Model(), RunTasks(worlds));
      var i := 0;
      assert worlds[0..] == worlds;
      while i < |worlds|
        invariant 0 <= i <= |worlds|
        invariant Runs(Model(), RunTasks(worlds[i..])) && After(Model(), RunTasks(worlds[i..])) == end
      {
        assert RunTasks(worlds[i..])[1..] == RunTasks(worlds[i + 1..]) by {
          assert worlds[i..][1..] == worlds[i + 1..];
        }
        RunTask(worlds[i]);
        i := i + 1;
      }
    }

    /** Runs one handler if its event bit is set, and adds what it did to the turn so far. */
    method Serve(bits: set<Event>, event: Event, w: World, ghost start: Control, ghost done: seq<Action>)
      returns (ghost done': seq<Action>)
      requires Inv(Model()) && batch == [] && w.Valid()
      requires Runs(start, done) && After(start, done) == Model()
      modifies this, machine
      ensures Inv(Model()) && batch == []
      ensures Runs(start, done') && After(start, done') == Model()
      ensures done' == done + if event in bits then [Handle(event, w)] else []
    {
      hide Inv, Extends, Handled;
      if event !in bits {
        assert done + [] == done;
        return done;
      }
      ghost var before := Model();
      match event {
      case ToggleChat => HandleToggleChatEvent(w);
      case StartListening => HandleStartListeningEvent(w);
      case StopListening => HandleStopListeningEvent(w);
      case WakeWordDetected => HandleWakeWordDetectedEvent(w);
      case NetworkError => HandleErrorEvent(w);
      case NetworkConnected => HandleNetworkConnectedEvent(w);
      case NetworkDisconnected => HandleNetworkDisconnectedEvent(w);
      case ActivationDone => HandleActivationDoneEvent(w);
      }
      done' := done + [Handle(event, w)];
      OneStepRuns(before, Handle(event, w));
      RunsAppend(start, done, [Handle(event, w)]);
    }

    /** The handlers of one turn, in the order the main loop looks at the event bits. */
    method ServeEvents(bits: set<Event>, world: Event -> World) returns (ghost done: seq<Action>)
      requires Inv(Model()) && batch == [] && forall event :: world(event).Valid()
      modifies this, machine
      ensures Inv(Model()) && batch == []
      ensures Runs(old(Model()), done) && After(old(Model()), done) == Model()
      ensures done == EventActions(bits, world)
    {
      hide Inv, Runs, After;
      ghost var start := Model();
      done := [];
      NothingRuns(start);
      assert [] + ServedIf(bits, NetworkError, world) == ServedIf(bits, NetworkError, world);
      done := Serve(bits, NetworkError, world(NetworkError), start, done);
      done := Serve(bits, NetworkConnected, world(NetworkConnected), start, done);
      done := Serve(bits, NetworkDisconnected, world(NetworkDisconnected), start, done);
      done := Serve(bits, ActivationDone, world(ActivationDone), start, done);
      done := Serve(bits, ToggleChat, world(ToggleChat), start, done);
      done := Serve(bits, StartListening, world(StartListening), start, done);
      done := Serve(bits, StopListening, world(StopListening), start, done);
      done := Serve(bits, WakeWordDetected, world(WakeWordDetected), start, done);
    }

    /** One turn of the main loop: the handlers of the bits that were set, then, if the schedule bit was,
        every task then queued.  The turn is a run of the step system, keeps the invariant, and a device
        that is connecting when the schedule bit is served leaves Connecting. */
    method RunTurn(bits: set<Event>, schedule: bool, world: Event -> World, taskWorld: nat -> World)
      returns (ghost served: Control, ghost done: seq<Action>, ghost round: seq<Action>)
      requires Inv(Model()) && batch == []
      requires (forall event :: world(event).Valid()) && (forall k :: taskWorld(k).Valid())
      modifies this, machine
      ensures Inv(Model()) && batch == []
      ensures done == EventActions(bits, world)
      ensures Runs(old(Model()), done + round) && After(old(Model()), done + round) == Model()
      ensures Runs(old(Model()), done) && served == After(old(Model()), done) && Runs(served, round)
      ensures !schedule ==> round == []
      ensures schedule ==>
                && round == [TakeBatch] + RunTasks(FirstWorlds(|served.queue|, taskWorld))
                && (served.state == Connecting ==> !StaysConnecting(served, round))
    {
      hide Inv, Handled, Ran;
      ghost var start := Model();
      done := ServeEvents(bits, world);
      served := Model();
      round := [];
      if schedule {
        var worlds := FirstWorlds(|mainTasks|, taskWorld);
        RunScheduledTasks(worlds);
        round := [TakeBatch] + RunTasks(worlds);
      } else {
        NothingRuns(served);
      }
      RunsAppend(start, done, round);
    }
  }

  function FirstWorlds(n: nat, world: nat -> World): seq<World> {
    seq(n, k requires 0 <= k < n => world(k))
  }

  ghost function ServedIf(bits: set<Event>, event: Event, world: Event -> World): seq<Action> {
    if event in bits then [Handle(event, world(event))] else []
  }

  /** What the handlers of one turn amount to, in the order the main loop looks at the bits. */
  ghost function EventActions(bits: set<Event>, world: Event -> World): seq<Action> {
    ServedIf(bits, NetworkError, world)
    + ServedIf(bits, NetworkConnected, world)
    + ServedIf(bits, NetworkDisconnected, world)
    + ServedIf(bits, ActivationDone, world)
    + ServedIf(bits, ToggleChat, world)
    + ServedIf(bits, StartListening, world)
    + ServedIf(bits, StopListening, world)
    + ServedIf(bits, WakeWordDetected, world)
  }


  const QUIET: Event -> World := _ => World(false, false, [], [])

  /** The order of the bits decides what two events of one turn amount to.  Press and release of the talk
      button end idle. */
  lemma PressAndReleaseInOneTurn(c: Control)
    requires c.batch == [] && c.protocol && c.channelOpen && c.state == Idle
    ensures var turn := EventActions({StartListening, StopListening}, QUIET);
      Runs(c, turn) && After(c, turn) == c.(mode := ManualStop)
  {
    var press, release := Handle(StartListening, QUIET(StartListening)), Handle(StopListening, QUIET(StopListening));
    assert EventActions({StartListening, StopListening}, QUIET) == [press] + [release];
    hide EventActions, Runs, After;
    OneStepRuns(c, press);
    OneStepRuns(c.(state := Listening, mode := ManualStop), release);
    assert Stepped(c, press) == c.(state := Listening, mode := ManualStop);
    RunsAppend(c, [press], [release]);
  }

  /** An error is over before the chat button starts the next conversation. */
  lemma ErrorBeforeRetryInOneTurn(c: Control)
    requires c.batch == [] && c.protocol && c.channelOpen && c.state == Listening
    ensures var turn := EventActions({NetworkError, ToggleChat}, QUIET);
      Runs(c, turn) && After(c, turn) == c.(mode := c.defaultMode)
  {
    var error, retry := Handle(NetworkError, QUIET(NetworkError)), Handle(ToggleChat, QUIET(ToggleChat));
    assert EventActions({NetworkError, ToggleChat}, QUIET) == [error] + [retry];
    hide EventActions, Runs, After;
    OneStepRuns(c, error);
    OneStepRuns(c.(state := Idle), retry);
    assert Stepped(c, error) == c.(state := Idle);
    RunsAppend(c, [error], [retry]);
  }
}
