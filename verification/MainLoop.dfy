/** How the main loop is woken: scheduling a task puts it in the queue and then sets an event bit, and the
loop clears all bits when it wakes and takes the queue later in its turn.  The steps of other threads
fall anywhere in between.  Every step here is a step of `DeviceControl` or leaves that state alone, so
whatever holds of all runs there holds here. */
module MainLoop {
  import opened DeviceControl

  /** Blocked on the event bits, or in a turn; `schedule` says that the turn has still to serve the
      schedule bit it woke with. */
  datatype Loop = Blocked | Turn(schedule: bool)

  /** `posters` are the threads between putting a task into the queue and setting the bit.  `posted` and
      `ran` record every task ever queued and ever run. */
  datatype System = System(control: Control, loop: Loop, bit: bool, posters: nat, posted: seq<Task>, ran: seq<Task>)

  datatype Step =
    | Push(task: Task)
    | SetBit
    | Other(request: Action)
    | Wake
    | Serve(event: Event, world: World)
    | Take
    | Execute(world: World)
    | Sleep

  /** What another thread may do to the control state besides posting. */
  predicate IsOther(a: Action) {
    a.Request? || a.ChannelChanges? || a.DefaultModeChanges? || a.ProtocolReady?
  }

  predicate Possible(s: System, step: Step) {
    match step
    case Push(task) => Enabled(s.control, Post(task))
    case SetBit => s.posters > 0
    case Other(request) => IsOther(request) && Enabled(s.control, request)
    case Wake => s.loop.Blocked?
    case Serve(event, world) => s.loop.Turn? && Enabled(s.control, Handle(event, world))
    case Take => s.loop == Turn(true) && Enabled(s.control, TakeBatch)
    case Execute(world) => s.loop.Turn? && Enabled(s.control, RunTask(world))
    case Sleep => s.loop == Turn(false) && s.control.batch == []
  }

  /** The action of the control state that a step amounts to, if any. */
  function ActionOf(step: Step): seq<Action> {
    match step
    case Push(task) => [Post(task)]
    case Other(request) => [request]
    case Serve(event, world) => [Handle(event, world)]
    case Take => [TakeBatch]
    case Execute(world) => [RunTask(world)]
    case _ => []
  }

  function ControlAfter(s: System, step: Step): Control
    requires Possible(s, step)
  {
    var actions := ActionOf(step);
    if actions == [] then s.control else Stepped(s.control, actions[0])
  }

  /** The tasks a step adds to the queue. */
  function NewTasks(s: System, step: Step): seq<Task>
    requires Possible(s, step)
  {
    var before := if step.Take? then [] else s.control.queue;
    var after := ControlAfter(s, step).queue;
    if |before| < |after| then after[|before|..] else []
  }

  /** A handler or task that schedules has set the bit by the time it returns; another thread that
      pushes has yet to set it. */
  function Next(s: System, step: Step): System
    requires Possible(s, step)
  {
    var control, added := ControlAfter(s, step), NewTasks(s, step);
    var posted := s.posted + added;
    match step
    case Push(_) => s.(control := control, posted := posted, posters := s.posters + 1)
    case SetBit => s.(bit := true, posters := s.posters - 1)
    case Other(_) => s.(control := control)
    case Wake => s.(loop := Turn(s.bit), bit := false)
    case Serve(_, _) => s.(control := control, posted := posted, bit := s.bit || added != [])
    case Take => s.(control := control, loop := Turn(false))
    case Execute(_) =>
      s.(control := control, posted := posted, ran := s.ran + [s.control.batch[0]], bit := s.bit || added != [])
    case Sleep => s.(loop := Blocked)
  }

  function Start(defaultMode: ListeningMode): System {
    System(Initial(defaultMode), Blocked, false, 0, [], [])
  }

  ghost predicate History(s: System, steps: seq<Step>)
    decreases |steps|
  {
    steps == [] || (Possible(s, steps[0]) && History(Next(s, steps[0]), steps[1..]))
  }

  function End(s: System, steps: seq<Step>): System
    requires History(s, steps)
    decreases |steps|
  {
    if steps == [] then s else End(Next(s, steps[0]), steps[1..])
  }

  // ---- no wake-up is lost ----

  /** A queued task is announced by the bit, about to be announced by its poster, or about to be taken by
      the loop; and a batch is only left over inside a turn that has taken the queue. */
  predicate Announced(s: System) {
    && (s.control.queue != [] ==> s.bit || s.posters > 0 || s.loop == Turn(true))
    && (s.control.batch != [] ==> s.loop == Turn(false))
  }

  /** Every task ever queued has run, or is in the batch, or is in the queue, once and in that order. */
  predicate Accounted(s: System) {
    s.posted == s.ran + (s.control.batch + s.control.queue)
  }

  /** A step only takes the queue as the batch, runs the head of the batch, or adds to the queue. */
  lemma TasksMove(s: System, step: Step)
    requires Inv(s.control) && Possible(s, step)
    ensures Inv(ControlAfter(s, step))
    ensures ControlAfter(s, step).batch ==
            if step.Take? then s.control.queue else if step.Execute? then s.control.batch[1..] else s.control.batch
    ensures ControlAfter(s, step).queue == (if step.Take? then [] else s.control.queue) + NewTasks(s, step)
    ensures step.Wake? || step.SetBit? || step.Sleep? || step.Take? || step.Other? ==> NewTasks(s, step) == []
  {
    hide Inv, Handled, Ran;
    var actions := ActionOf(step);
    if actions != [] {
      StepExtends(s.control, actions[0]);
      StepKeepsInv(s.control, actions[0]);
    }
  }

  lemma StepKeepsAnnounced(s: System, step: Step)
    requires Inv(s.control) && Possible(s, step) && Announced(s)
    ensures Announced(Next(s, step))
  {
    TasksMove(s, step);
    hide Inv, ControlAfter, NewTasks, Stepped;
  }

  lemma AddedLast(ran: seq<Task>, batch: seq<Task>, queue: seq<Task>, added: seq<Task>)
    ensures (ran + (batch + queue)) + added == ran + (batch + (queue + added))
  {
  }

  lemma HeadRuns(ran: seq<Task>, batch: seq<Task>, rest: seq<Task>)
    requires batch != []
    ensures ran + (batch + rest) == (ran + [batch[0]]) + (batch[1..] + rest)
  {
  }

  lemma StepKeepsAccounted(s: System, step: Step)
    requires Inv(s.control) && Possible(s, step) && Announced(s) && Accounted(s)
    ensures Accounted(Next(s, step))
  {
    TasksMove(s, step);
    NextControl(s, step);
    var added, batch, queue := NewTasks(s, step), s.control.batch, s.control.queue;
    AddedLast(s.ran, batch, queue, added);
    hide Inv, ControlAfter, NewTasks, Stepped, Enabled;
    match step
    case Execute(_) => HeadRuns(s.ran, batch, queue + added);
    case Take => assert batch == [] && [] + queue == queue == queue + [];
    case Push(_) =>
    case Serve(_, _) =>
    case _ => assert added == [] && queue + [] == queue;
  }

  lemma NextControl(s: System, step: Step)
    requires Possible(s, step)
    ensures Next(s, step).control == ControlAfter(s, step)
  {
    hide NewTasks;
  }

  lemma {:induction false} TasksAlways(s: System, steps: seq<Step>)
    requires Inv(s.control) && Announced(s) && Accounted(s) && History(s, steps)
    ensures Inv(End(s, steps).control) && Announced(End(s, steps)) && Accounted(End(s, steps))
    decreases |steps|
  {
    hide Inv, Announced, Accounted, Next, Possible;
    if steps != [] {
      TasksMove(s, steps[0]);
      NextControl(s, steps[0]);
      StepKeepsAnnounced(s, steps[0]);
      StepKeepsAccounted(s, steps[0]);
      TasksAlways(Next(s, steps[0]), steps[1..]);
    }
  }

  /** Whatever the interleaving since start-up: when the main loop is blocked with no bit set and no
      thread on its way to set it, every task ever scheduled has run, exactly once and in order, and the
      device is not connecting. */
  lemma NoTaskIsLost(defaultMode: ListeningMode, steps: seq<Step>)
    requires History(Start(defaultMode), steps)
    ensures var s := End(Start(defaultMode), steps);
      s.loop.Blocked? && !s.bit && s.posters == 0 ==> s.ran == s.posted && s.control.state != Connecting
  {
    var s := End(Start(defaultMode), steps);
    TasksAlways(Start(defaultMode), steps);
    if s.loop.Blocked? && !s.bit && s.posters == 0 {
      assert s.control.batch + s.control.queue == [];
      assert forall k: nat :: !WaitsAt(s.control, k);
    }
  }


  // ---- what is announced is served ----

  /** Woken by the bit, the loop takes everything queued, in order. */
  lemma WakingTakesTheQueue(s: System)
    requires s.loop.Blocked? && s.bit && s.control.batch == []
    ensures var steps := [Wake, Take];
      && History(s, steps) && !End(s, steps).bit
      && End(s, steps).control == s.control.(batch := s.control.queue, queue := [])
  {
    hide Handled, Ran;
    assert [Wake, Take][1..] == [Take] && [Take][1..] == [];
  }

  /** A task another thread posts is in the queue, announced, once its poster is done. */
  lemma PostedTaskIsAnnounced(s: System, task: Task)
    requires s.posters == 0 && Enabled(s.control, Post(task))
    ensures History(s, [Push(task), SetBit])
    ensures End(s, [Push(task), SetBit]) ==
            s.(bit := true, posted := s.posted + [task], control := Scheduled(s.control, task))
  {
    hide Inv;
    assert s.control.queue + [task] == Scheduled(s.control, task).queue;
    assert NewTasks(s, Push(task)) == [task];
    OneMore(Next(s, Push(task)), SetBit, []);
    OneMore(s, Push(task), [SetBit]);
    assert [SetBit] + [] == [SetBit] && [Push(task)] + [SetBit] == [Push(task), SetBit];
  }

  /** From a blocked loop one announced task is taken and run, and the loop is blocked again: in any
      state, and in whatever way the task ends. */
  lemma AnnouncedTaskIsServed(s: System, c: Control, task: Task, w: World)
    requires s.loop.Blocked? && s.bit && s.control == Scheduled(c, task) && c.batch == [] && c.queue == []
    requires (NeedsProtocol(task) ==> c.protocol) && w.Valid()
    ensures var serve := [Wake, Take, Execute(w), Sleep];
      && History(s, serve)
      && var served := End(s, serve);
         && served.loop.Blocked? && served.posters == s.posters && served.ran == s.ran + [task]
         && served.control == Ran(c, task, w) && (served.bit <==> served.control.queue != [])
  {
    hide Handled, Ran, Inv, NeedsProtocol;
    var woken := Next(s, Wake);
    assert s.control.queue == [task];
    var taken := Next(woken, Take);
    assert taken.control == c.(batch := [task]) && taken.loop == Turn(false);
    LastTaskRuns(taken, c, task, w);
    var executed := Next(taken, Execute(w));
    hide ActionOf, ControlAfter, NewTasks, Stepped;
    OneMore(executed, Sleep, []);
    OneMore(taken, Execute(w), [Sleep]);
    OneMore(woken, Take, [Execute(w), Sleep]);
    OneMore(s, Wake, [Take, Execute(w), Sleep]);
    assert [Sleep] + [] == [Sleep] && [Execute(w)] + [Sleep] == [Execute(w), Sleep];
    assert [Take] + [Execute(w), Sleep] == [Take, Execute(w), Sleep];
    assert [Wake] + [Take, Execute(w), Sleep] == [Wake, Take, Execute(w), Sleep];
  }

  lemma OneMore(s: System, step: Step, rest: seq<Step>)
    requires Possible(s, step) && History(Next(s, step), rest)
    ensures History(s, [step] + rest) && End(s, [step] + rest) == End(Next(s, step), rest)
  {
    hide Next, Possible;
    assert ([step] + rest)[1..] == rest;
  }

  lemma LastTaskRuns(s: System, c: Control, task: Task, w: World)
    requires s.loop.Turn? && s.control == c.(batch := [task]) && c.batch == [] && c.queue == [] && !s.bit
    requires (NeedsProtocol(task) ==> c.protocol) && w.Valid()
    ensures Possible(s, Execute(w))
    ensures var t := Next(s, Execute(w));
      && t.control == Ran(c, task, w) && t.control.batch == [] && (t.bit <==> t.control.queue != [])
      && t.loop == s.loop && t.posters == s.posters && t.ran == s.ran + [task]
  {
    hide Handled, Ran;
    RanExtends(c, task, w);
    assert s.control.(batch := s.control.batch[1..]) == c;
  }
}
