/** Whole conversations: what a user does, what the server answers and where the device ends up, as runs
of the step system in which no other thread interferes unless the lemma says so. */
module Conversations {
  import opened DeviceControl

  /** A handler or task nobody interferes with. */
  function Calm(opens: bool, reportsClose: bool): World {
    World(opens, reportsClose, [], [])
  }

  const QUIET: World := Calm(false, false)

  /** Between turns, with nothing queued. */
  predicate AtRest(c: Control) {
    c.batch == [] && c.queue == []
  }

  ghost predicate Leads(c: Control, actions: seq<Action>, c': Control) {
    Runs(c, actions) && After(c, actions) == c'
  }

  lemma Then(c: Control, a: seq<Action>, c': Control, b: seq<Action>, c'': Control)
    requires Leads(c, a, c') && Leads(c', b, c'')
    ensures Leads(c, a + b, c'')
  {
    RunsAppend(c, a, b);
  }

  lemma One(c: Control, a: Action)
    requires Enabled(c, a)
    ensures Leads(c, [a], Stepped(c, a))
  {
    OneStepRuns(c, a);
  }

  // ---- turns of the main loop ----

  /** The main task takes the one queued task and runs it. */
  function NextTask(w: World): seq<Action> {
    [TakeBatch] + [RunTask(w)]
  }

  /** Another thread schedules a task, and the main task runs it. */
  function Posted(task: Task, w: World): seq<Action> {
    [Post(task)] + NextTask(w)
  }

  lemma NextTaskRuns(c: Control, w: World)
    requires c.batch == [] && |c.queue| == 1 && w.Valid()
    ensures Leads(c, NextTask(w), Ran(c.(queue := []), c.queue[0], w))
  {
    hide Ran;
    One(c, TakeBatch);
    var taken := c.(batch := c.queue, queue := []);
    One(taken, RunTask(w));
    assert taken.(batch := taken.batch[1..]) == c.(queue := []);
    Then(c, [TakeBatch], taken, [RunTask(w)], Ran(c.(queue := []), c.queue[0], w));
  }

  lemma PostedRuns(c: Control, task: Task, w: World)
    requires AtRest(c) && Enabled(c, Post(task)) && w.Valid()
    ensures Leads(c, Posted(task, w), Ran(c, task, w))
  {
    hide Ran;
    One(c, Post(task));
    NextTaskRuns(Scheduled(c, task), w);
    assert Scheduled(c, task).(queue := []) == c;
    Then(c, [Post(task)], Scheduled(c, task), NextTask(w), Ran(c, task, w));
  }

  // ---- starting a conversation ----

  predicate Starts(event: Event) {
    event.ToggleChat? || event.StartListening? || event.WakeWordDetected?
  }

  /** The user starts to talk, and the main task serves the continuation if one was scheduled. */
  function Start(event: Event, channelOpen: bool, opens: bool): seq<Action> {
    [Handle(event, QUIET)] + if channelOpen then [] else NextTask(Calm(opens, false))
  }

  /** Listening, over an open channel, in the mode the event stands for; or idle again when the channel
      does not open. */
  function Started(c: Control, event: Event, opens: bool): Control {
    if c.channelOpen || opens
    then c.(state := Listening, channelOpen := true, mode := if event.StartListening? then ManualStop else c.defaultMode)
    else c.(state := Idle)
  }

  /** What starting without a channel leaves for the next turn. */
  function Waiting(c: Control, event: Event): Control {
    c.(state := Connecting,
       queue := [if event.WakeWordDetected? then ContinueWake
                 else ContinueOpen(if event.StartListening? then ManualStop else c.defaultMode)])
  }

  lemma WaitingLeads(c: Control, event: Event)
    requires AtRest(c) && c.protocol && (c.state == Idle || c.state == Notifying) && !c.channelOpen && Starts(event)
    ensures Leads(c, [Handle(event, QUIET)], Waiting(c, event))
  {
    hide Leads;
    One(c, Handle(event, QUIET));
    assert c.queue + Waiting(c, event).queue == Waiting(c, event).queue;
    assert Handled(c, event, QUIET) == Waiting(c, event);
  }

  lemma StartLeads(c: Control, event: Event, opens: bool)
    requires AtRest(c) && c.protocol && (c.state == Idle || c.state == Notifying) && Starts(event)
    ensures Leads(c, Start(event, c.channelOpen, opens), Started(c, event, opens))
  {
    hide Leads, NextTask;
    if c.channelOpen {
      One(c, Handle(event, QUIET));
      assert [Handle(event, QUIET)] + [] == [Handle(event, QUIET)];
    } else {
      hide Handled;
      WaitingLeads(c, event);
      NextTaskRuns(Waiting(c, event), Calm(opens, false));
      Then(c, [Handle(event, QUIET)], Waiting(c, event), NextTask(Calm(opens, false)), Started(c, event, opens));
    }
  }

  /** The server's answer: it starts to speak, and stops. */
  function Answer(): seq<Action> {
    Posted(TtsStart, QUIET) + Posted(TtsStop, QUIET)
  }

  lemma AnswerLeads(c: Control)
    requires AtRest(c) && (c.state == Listening || c.state == Speaking || c.state == Idle)
    ensures Leads(c, Posted(TtsStart, QUIET), c.(state := Speaking))
    ensures Leads(c, Answer(), c.(state := if c.mode == ManualStop then Idle else Listening))
  {
    hide Leads;
    PostedRuns(c, TtsStart, QUIET);
    PostedRuns(c.(state := Speaking), TtsStop, QUIET);
    Then(c, Posted(TtsStart, QUIET), c.(state := Speaking), Posted(TtsStop, QUIET),
         c.(state := if c.mode == ManualStop then Idle else Listening));
  }

  /** Push to talk ends with its answer; a conversation started by the chat button or the wake word
      listens again, unless the default mode is to stop by hand.  All over an open channel, whether it
      was open before or opened by the continuation. */
  lemma ConversationContinues(c: Control, event: Event, opens: bool)
    requires AtRest(c) && c.protocol && (c.state == Idle || c.state == Notifying) && Starts(event)
    requires c.channelOpen || opens
    ensures Leads(c, Start(event, c.channelOpen, opens) + Answer(),
                  c.(channelOpen := true, mode := if event.StartListening? then ManualStop else c.defaultMode,
                     state := if event.StartListening? || c.defaultMode == ManualStop then Idle else Listening))
  {
    hide Leads, Start, Answer;
    StartLeads(c, event, opens);
    var talking := Started(c, event, opens);
    AnswerLeads(talking);
    Then(c, Start(event, c.channelOpen, opens), talking, Answer(),
         talking.(state := if talking.mode == ManualStop then Idle else Listening));
  }

  /** Without a channel the device is idle again, and nothing is left to run. */
  lemma FailedOpenEndsIdle(c: Control, event: Event)
    requires AtRest(c) && c.protocol && (c.state == Idle || c.state == Notifying) && Starts(event) && !c.channelOpen
    ensures Leads(c, Start(event, false, false), c.(state := Idle))
  {
    hide Leads, Start;
    StartLeads(c, event, false);
  }

  /** Talking over the answer: the talk button makes the rest of the conversation push to talk, the wake
      word returns to the default mode, and the chat button does not change where the answer leads. */
  lemma Interruption(c: Control, event: Event)
    requires AtRest(c) && c.protocol && c.state == Speaking && Starts(event)
    ensures var mode := if event.StartListening? then ManualStop
                        else if event.WakeWordDetected? then c.defaultMode else c.mode;
      && Leads(c, [Handle(event, QUIET)],
               c.(mode := mode, state := if event.ToggleChat? then Speaking else Listening))
      && Leads(c, [Handle(event, QUIET)] + Answer(),
               c.(mode := mode, state := if mode == ManualStop then Idle else Listening))
  {
    hide Leads, Answer;
    One(c, Handle(event, QUIET));
    var handled := Handled(c, event, QUIET);
    hide Handled, Ran;
    AnswerLeads(handled);
    Then(c, [Handle(event, QUIET)], handled, Answer(),
         handled.(state := if handled.mode == ManualStop then Idle else Listening));
  }

  /** The chat button fixes the listening mode when it is pressed, the wake word when its channel
      opens. */
  lemma ModeIsChosen(c: Control, event: Event, later: ListeningMode)
    requires AtRest(c) && c.protocol && c.state == Idle && !c.channelOpen && Starts(event)
    ensures Leads(c, [Handle(event, QUIET)] + [DefaultModeChanges(later)] + NextTask(Calm(true, false)),
                  c.(state := Listening, channelOpen := true, defaultMode := later,
                     mode := if event.ToggleChat? then c.defaultMode
                             else if event.StartListening? then ManualStop else later))
  {
    hide Leads, NextTask, Handled;
    WaitingLeads(c, event);
    var waiting, changed := Waiting(c, event), Waiting(c, event).(defaultMode := later);
    One(waiting, DefaultModeChanges(later));
    Then(c, [Handle(event, QUIET)], waiting, [DefaultModeChanges(later)], changed);
    NextTaskRuns(changed, Calm(true, false));
    Then(c, [Handle(event, QUIET)] + [DefaultModeChanges(later)], changed, NextTask(Calm(true, false)),
         Ran(changed.(queue := []), changed.queue[0], Calm(true, false)));
  }

  // ---- when somebody else was faster ----

  /** A request that wins the race before Connecting is entered stands: the wake word is dropped, and
      the continuation of a talk button finds the device elsewhere and opens nothing. */
  lemma EarlierRequestWins(c: Control, event: Event, other: DeviceState, opens: bool)
    requires AtRest(c) && c.protocol && c.state == Idle && !c.channelOpen && Starts(event)
    requires other in {Listening, Speaking, Notifying, Upgrading, Activating, WifiConfiguring}
    ensures Leads(c, [Handle(event, World(opens, false, [other], []))] +
                     (if event.WakeWordDetected? then [] else NextTask(Calm(opens, false))), c.(state := other))
  {
    hide Leads, NextTask, IsValidTransition;
    var w := World(opens, false, [other], []);
    One(c, Handle(event, w));
    OneRequest(Idle, other);
    TransitionsByTarget(Idle, other);
    TransitionsByTarget(other, Connecting);
    if event.WakeWordDetected? {
      assert [Handle(event, w)] + [] == [Handle(event, w)];
    } else {
      var handled := Handled(c, event, w);
      assert handled == Waiting(c, event).(state := other);
      hide Handled;
      NextTaskRuns(handled, Calm(opens, false));
      Then(c, [Handle(event, w)], handled, NextTask(Calm(opens, false)), c.(state := other));
    }
  }

  /** The same for a request that ends Connecting before the continuation runs. */
  lemma LaterRequestWins(c: Control, event: Event, other: DeviceState, opens: bool)
    requires AtRest(c) && c.protocol && c.state == Idle && !c.channelOpen && Starts(event)
    requires other == Idle || other == Listening
    ensures Leads(c, [Handle(event, World(opens, false, [], [other]))] + NextTask(Calm(opens, false)), c.(state := other))
  {
    hide Leads, NextTask;
    var w := World(opens, false, [], [other]);
    One(c, Handle(event, w));
    OneRequest(Connecting, other);
    var handled := Handled(c, event, w);
    assert handled == Waiting(c, event).(state := other);
    hide Handled;
    NextTaskRuns(handled, Calm(opens, false));
    Then(c, [Handle(event, w)], handled, NextTask(Calm(opens, false)), c.(state := other));
  }

  lemma OneRequest(state: DeviceState, other: DeviceState)
    ensures Raced(state, []) == state && Raced(state, [other]) == Moved(state, other)
  {
    assert [other][..0] == [];
  }

  // ---- ending a conversation ----

  /** A conversation ends idle with the channel closed when the user hangs up, the network is lost, or
      the server or the device asks for the channel to be closed. */
  lemma HangUp(c: Control)
    requires AtRest(c) && c.protocol && (c.state == Listening || c.state == Speaking)
    ensures var closing, ended := Calm(false, true), c.(state := Idle, channelOpen := false);
      && Leads(c, [Handle(NetworkDisconnected, closing)] + NextTask(QUIET), ended)
      && Leads(c, Posted(CloseChannel, closing) + NextTask(QUIET), ended)
      && (c.state == Listening ==> Leads(c, [Handle(ToggleChat, closing)] + NextTask(QUIET), ended))
  {
    hide Leads;
    var closing, ended := Calm(false, true), c.(state := Idle, channelOpen := false);
    var closed := c.(channelOpen := false, queue := [ChannelClosed]);
    assert c.queue + [ChannelClosed] == [ChannelClosed];
    NextTaskRuns(closed, QUIET);
    PostedRuns(c, CloseChannel, closing);
    Then(c, Posted(CloseChannel, closing), closed, NextTask(QUIET), ended);
    One(c, Handle(NetworkDisconnected, closing));
    Then(c, [Handle(NetworkDisconnected, closing)], closed, NextTask(QUIET), ended);
    if c.state == Listening {
      One(c, Handle(ToggleChat, closing));
      Then(c, [Handle(ToggleChat, closing)], closed, NextTask(QUIET), ended);
    }
  }

  /** Losing the network ends a notification and nothing else outside a conversation. */
  lemma NetworkLossElsewhere(c: Control, w: World)
    requires AtRest(c) && w.Valid() && c.state !in {Connecting, Listening, Speaking}
    ensures Leads(c, [Handle(NetworkDisconnected, w)], c.(state := if c.state == Notifying then Idle else c.state))
  {
    hide Leads;
    One(c, Handle(NetworkDisconnected, w));
  }

  /** Letting go of the talk button stops listening and keeps the channel; the answer still plays, and
      the device is idle after it. */
  lemma PushToTalk(c: Control, opens: bool)
    requires AtRest(c) && c.protocol && c.state == Idle && (c.channelOpen || opens)
    ensures Leads(c, Start(StartListening, c.channelOpen, opens) + [Handle(StopListening, QUIET)] + Answer(),
                  c.(channelOpen := true, mode := ManualStop))
  {
    hide Leads;
    StartLeads(c, StartListening, opens);
    var talking, asked := Started(c, StartListening, opens), Started(c, StartListening, opens).(state := Idle);
    One(talking, Handle(StopListening, QUIET));
    Then(c, Start(StartListening, c.channelOpen, opens), talking, [Handle(StopListening, QUIET)], asked);
    AnswerLeads(asked);
    Then(c, Start(StartListening, c.channelOpen, opens) + [Handle(StopListening, QUIET)], asked, Answer(),
         c.(channelOpen := true, mode := ManualStop));
  }

  // ---- what single tasks do from every state ----

  /** Speech starts exactly from the states that may speak, and stops only where it was. */
  lemma SpeechTasks(c: Control)
    requires AtRest(c)
    ensures Leads(c, Posted(TtsStart, QUIET), c.(state := if c.state in {Idle, Listening, Speaking} then Speaking else c.state))
    ensures c.state != Speaking ==> Leads(c, Posted(TtsStop, QUIET), c)
  {
    hide Leads, Posted;
    PostedRuns(c, TtsStart, QUIET);
    PostedRuns(c, TtsStop, QUIET);
  }

  /** A closed channel ends every activity that may end in idle; drawing changes nothing. */
  lemma ChannelCloses(c: Control)
    requires AtRest(c)
    ensures Leads(c, Posted(ChannelClosed, QUIET),
                  c.(state := if c.state in {Unknown, Starting, WifiConfiguring, AudioTesting, FatalError} then c.state
                              else Idle))
    ensures Leads(c, Posted(Display, QUIET), c)
  {
    hide Leads, Posted;
    PostedRuns(c, ChannelClosed, QUIET);
    PostedRuns(c, Display, QUIET);
  }

  /** A notification plays from idle until it is finished, and not at all when its start fails. */
  lemma NotificationPlays(c: Control)
    requires AtRest(c) && c.state == Idle
    ensures Leads(c, Posted(StartNotification(false, true), QUIET), c.(state := Notifying))
    ensures Leads(c, Posted(StartNotification(false, true), QUIET) + Posted(NotificationFinished(true), QUIET), c)
    ensures Leads(c, Posted(StartNotification(false, false), QUIET), c)
  {
    hide Leads, Posted;
    PostedRuns(c, StartNotification(false, true), QUIET);
    PostedRuns(c, StartNotification(false, false), QUIET);
    PostedRuns(c.(state := Notifying), NotificationFinished(true), QUIET);
    Then(c, Posted(StartNotification(false, true), QUIET), c.(state := Notifying),
         Posted(NotificationFinished(true), QUIET), c);
  }

  /** A start in any other state or while the player is busy, a report of an earlier notification and
      one that comes too late leave everything as it was. */
  lemma NotificationIsIgnored(c: Control, started: bool, w: World)
    requires AtRest(c) && w.Valid()
    ensures c.state != Idle ==> Leads(c, Posted(StartNotification(false, started), w), c)
    ensures Leads(c, Posted(StartNotification(true, started), w), c)
    ensures Leads(c, Posted(NotificationFinished(false), w), c)
    ensures c.state != Notifying ==> Leads(c, Posted(NotificationFinished(true), w), c)
  {
    hide Leads, Posted, IsValidTransition;
    PostedRuns(c, StartNotification(false, started), w);
    PostedRuns(c, StartNotification(true, started), w);
    PostedRuns(c, NotificationFinished(false), w);
    PostedRuns(c, NotificationFinished(true), w);
  }

  /** The wake-word invocations other threads schedule start a conversation like the wake word itself,
      each from its own state only. */
  lemma Invocations(c: Control, task: Task, opens: bool)
    requires AtRest(c) && c.protocol && (task.InvokeIfIdle? || task.InvokeIfNotifying?)
    ensures var from := if task.InvokeIfIdle? then Idle else Notifying;
      if c.state == from
      then Leads(c, Posted(task, QUIET) + (if c.channelOpen then [] else NextTask(Calm(opens, false))),
                 Started(c, WakeWordDetected, opens))
      else Leads(c, Posted(task, QUIET), c)
  {
    hide Leads;
    PostedRuns(c, task, QUIET);
    var ran := Ran(c, task, QUIET);
    if c.state == (if task.InvokeIfIdle? then Idle else Notifying) {
      if c.channelOpen {
        assert Posted(task, QUIET) + [] == Posted(task, QUIET);
      } else {
        assert ran == c.(state := Connecting, queue := [ContinueWake]);
        NextTaskRuns(ran, Calm(opens, false));
        Then(c, Posted(task, QUIET), ran, NextTask(Calm(opens, false)), Started(c, WakeWordDetected, opens));
      }
    }
  }

  // ---- outside conversations ----

  /** From power-up to idle. */
  lemma StartUp(mode: ListeningMode)
    ensures Leads(Initial(mode),
                  [Request(Starting)] + [Handle(NetworkConnected, QUIET)] + [Handle(ActivationDone, QUIET)],
                  Initial(mode).(state := Idle))
    ensures Inv(Initial(mode)) && !Initial(mode).protocol
  {
    hide Leads;
    var c := Initial(mode);
    One(c, Request(Starting));
    Activation(c.(state := Starting));
    Then(c, [Request(Starting)], c.(state := Starting),
         [Handle(NetworkConnected, QUIET)] + [Handle(ActivationDone, QUIET)], c.(state := Idle));
    Same([Request(Starting)], [Handle(NetworkConnected, QUIET)], [Handle(ActivationDone, QUIET)]);
  }

  /** The first conversation, once there is a protocol. */
  lemma FirstConversation(mode: ListeningMode, event: Event)
    requires Starts(event)
    ensures var boot := [Request(Starting)] + [Handle(NetworkConnected, QUIET)] + [Handle(ActivationDone, QUIET)];
      Leads(Initial(mode), boot + [ProtocolReady] + Start(event, false, true),
            Initial(mode).(state := Listening, protocol := true, channelOpen := true,
                           mode := if event.StartListening? then ManualStop else mode))
  {
    hide Leads, Start;
    var boot := [Request(Starting)] + [Handle(NetworkConnected, QUIET)] + [Handle(ActivationDone, QUIET)];
    var idle := Initial(mode).(state := Idle);
    StartUp(mode);
    One(idle, ProtocolReady);
    Then(Initial(mode), boot, idle, [ProtocolReady], idle.(protocol := true));
    StartLeads(idle.(protocol := true), event, true);
    Then(Initial(mode), boot + [ProtocolReady], idle.(protocol := true), Start(event, false, true),
         Started(idle.(protocol := true), event, true));
  }

  /** Until then nothing anybody does makes the device connect or opens a channel. */
  lemma {:induction false} NoConversationWithoutProtocol(c: Control, actions: seq<Action>)
    requires Inv(c) && !c.protocol && Runs(c, actions) && ProtocolReady !in actions
    ensures !After(c, actions).protocol && !After(c, actions).channelOpen && After(c, actions).state != Connecting
    decreases |actions|
  {
    hide Stepped, Enabled;
    if actions == [] {
      WithoutProtocol(c);
    } else {
      StepExtends(c, actions[0]);
      StepKeepsInv(c, actions[0]);
      NoConversationWithoutProtocol(Stepped(c, actions[0]), actions[1..]);
    }
  }

  lemma WithoutProtocol(c: Control)
    requires Inv(c) && !c.protocol
    ensures !c.channelOpen && c.state != Connecting
  {
    assert forall k: nat :: WaitsAt(c, k) ==> NeedsProtocol(Pending(c)[k]);
  }

  lemma Same(a: seq<Action>, b: seq<Action>, c: seq<Action>)
    ensures a + (b + c) == a + b + c
  {
  }

  lemma Activation(c: Control)
    requires AtRest(c) && (c.state == Starting || c.state == WifiConfiguring)
    ensures Leads(c, [Handle(NetworkConnected, QUIET)] + [Handle(ActivationDone, QUIET)], c.(state := Idle))
  {
    hide Leads;
    One(c, Handle(NetworkConnected, QUIET));
    One(c.(state := Activating), Handle(ActivationDone, QUIET));
    Then(c, [Handle(NetworkConnected, QUIET)], c.(state := Activating), [Handle(ActivationDone, QUIET)], c.(state := Idle));
  }

  /** Without Wi-Fi, set-up; pressing the chat button twice tests the audio and returns to it; a network
      then activates the device. */
  lemma WifiSetUp(c: Control)
    requires AtRest(c) && c.state == WifiConfiguring
    ensures var press := [Handle(ToggleChat, QUIET)];
      && Leads(c, press, c.(state := AudioTesting))
      && Leads(c, press + press, c)
      && Leads(c, press + press + ([Handle(NetworkConnected, QUIET)] + [Handle(ActivationDone, QUIET)]), c.(state := Idle))
  {
    hide Leads;
    var press := [Handle(ToggleChat, QUIET)];
    One(c, Handle(ToggleChat, QUIET));
    One(c.(state := AudioTesting), Handle(ToggleChat, QUIET));
    Then(c, press, c.(state := AudioTesting), press, c);
    Activation(c);
    Then(c, press + press, c, [Handle(NetworkConnected, QUIET)] + [Handle(ActivationDone, QUIET)], c.(state := Idle));
  }

  /** Without a protocol, or while updating or broken, the user's events start nothing. */
  lemma NothingStarts(c: Control, event: Event)
    requires AtRest(c) && Starts(event)
    requires c.state in {Upgrading, FatalError, Unknown, Starting, Connecting} || (c.state == Idle && !c.protocol)
    ensures Leads(c, [Handle(event, QUIET)], c)
  {
    hide Leads;
    One(c, Handle(event, QUIET));
  }

  /** Any of the user's three ways to talk ends a running activation; the talk buttons toggle the audio
      test of Wi-Fi set-up, releasing the talk button ends it, and the wake word leaves it alone. */
  lemma OutsideConversations(c: Control, event: Event)
    requires AtRest(c) && Starts(event) && (event.WakeWordDetected? ==> c.protocol)
    ensures c.state == Activating ==> Leads(c, [Handle(event, QUIET)], c.(state := Idle))
    ensures c.state == WifiConfiguring ==>
      Leads(c, [Handle(event, QUIET)], if event.WakeWordDetected? then c else c.(state := AudioTesting))
    ensures c.state == AudioTesting ==>
      && Leads(c, [Handle(event, QUIET)], if event.ToggleChat? then c.(state := WifiConfiguring) else c)
      && Leads(c, [Handle(StopListening, QUIET)], c.(state := WifiConfiguring))
  {
    hide Leads;
    One(c, Handle(event, QUIET));
    One(c, Handle(StopListening, QUIET));
  }

  // ---- the state graph, seen from its targets ----

  function Predecessors(to: DeviceState): set<DeviceState> {
    match to
    case Unknown => {}
    case Starting => {Unknown}
    case WifiConfiguring => {Starting, AudioTesting, Activating, Idle}
    case Idle => {Activating, Upgrading, Connecting, Listening, Speaking, Notifying}
    case Connecting => {Idle}
    case Listening => {Idle, Connecting, Speaking}
    case Speaking => {Idle, Listening}
    case Notifying => {Idle}
    case Upgrading => {Activating, Idle}
    case Activating => {Starting, WifiConfiguring, Upgrading, Idle}
    case AudioTesting => {WifiConfiguring}
    case FatalError => {}
  }

  /** The table of `IsValidTransition`, read the other way round. */
  lemma TransitionsByTarget(from: DeviceState, to: DeviceState)
    ensures IsValidTransition(from, to) <==> from == to || from in Predecessors(to)
  {
  }
}
