/** The in-memory event queue of a repository handler and its one-slot wakeup channel.

    Producers append under the queue's mutex and then signal without it; the run loop receives a token, takes the whole
    queue, works, looks at the queue again and may signal itself. Every mutex section and channel operation is one
    step. */
module EventQueue {
  import Runs

  type Event = nat
  type Producer = nat

  datatype RunLoop = Selecting | Received | Working | Checking | Signalling | Exited

  /** `closed` is whether cleanup has closed the channel, `panicked` whether a producer has signalled after that.
      `appended` holds the producers between append and signal. `enqueued` and `dequeued` record all events ever put in
      and taken out. */
  datatype State = State(
    queue: seq<Event>, token: bool, appended: set<Producer>, loop: RunLoop, stopped: bool, closed: bool, panicked: bool,
    enqueued: seq<Event>, dequeued: seq<Event>)

  ghost predicate Init(s: State) {
    s == State([], false, {}, Selecting, false, false, false, [], [])
  }

  ghost predicate Append(s: State, t: State, p: Producer, e: Event) {
    && p !in s.appended
    && t == s.(queue := s.queue + [e], appended := s.appended + {p}, enqueued := s.enqueued + [e])
  }

  /** A send that is dropped when the slot is taken, and panics when the channel is closed. */
  ghost predicate Signal(s: State, t: State, p: Producer) {
    && p in s.appended
    && t == s.(appended := s.appended - {p}, token := s.token || !s.closed, panicked := s.closed)
  }

  ghost predicate Receive(s: State, t: State) {
    s.loop.Selecting? && s.token && t == s.(loop := Received, token := false)
  }

  ghost predicate Dequeue(s: State, t: State) {
    s.loop.Received? && t == s.(loop := Working, queue := [], dequeued := s.dequeued + s.queue)
  }

  ghost predicate EndBatch(s: State, t: State) {
    s.loop.Working? && t == s.(loop := Checking)
  }

  ghost predicate Check(s: State, t: State) {
    s.loop.Checking? && t == s.(loop := if s.queue == [] then Selecting else Signalling)
  }

  ghost predicate Resignal(s: State, t: State) {
    s.loop.Signalling? && t == s.(loop := Selecting, token := true)
  }

  ghost predicate SetStopped(s: State, t: State) { t == s.(stopped := true) }

  /** Stop, and Started on a stopped handler, take a token for themselves; the loop leaves when it sees the flag. */
  ghost predicate Stopping(s: State, t: State) {
    && s.stopped
    && ((s.token && t == s.(token := false)) || (s.loop.Selecting? && t == s.(loop := Exited)))
  }

  /** When the loop has left, cleanup closes the channel. */
  ghost predicate CloseQueued(s: State, t: State) { s.loop.Exited? && !s.closed && t == s.(closed := true) }

  ghost predicate LoopStep(s: State, t: State) {
    Receive(s, t) || Dequeue(s, t) || EndBatch(s, t) || Check(s, t) || Resignal(s, t)
  }

  ghost predicate Next(s: State, t: State) {
    && !s.panicked
    && (|| (exists p, e :: Append(s, t, p, e)) || (exists p :: Signal(s, t, p))
        || LoopStep(s, t) || SetStopped(s, t) || Stopping(s, t) || CloseQueued(s, t))
  }

  ghost predicate WakeupDue(s: State) { !s.panicked && (s.token || s.appended != {} || s.loop.Received?) }

  ghost predicate Inv(s: State) {
    && s.dequeued + s.queue == s.enqueued
    && (!s.stopped ==> (s.queue != [] ==> WakeupDue(s)) && !s.loop.Exited? && !s.closed && !s.panicked)
    && (s.closed ==> s.loop.Exited?) && (s.panicked ==> s.closed)
  }

  lemma StepKeeps(s: State, t: State)
    requires Inv(s) && Next(s, t)
    ensures Inv(t)
  {
    if p, e :| Append(s, t, p, e) {
      assert p in t.appended;
      assert t.dequeued + t.queue == s.dequeued + s.queue + [e];
    } else if Dequeue(s, t) {
      assert t.dequeued + t.queue == s.dequeued + s.queue;
    }
  }

  /** No lost wakeup, and no event lost, duplicated or reordered: until Stopped is set a non-empty queue has a wakeup
      due; always, what was taken out followed by the queue is what was put in. */
  lemma NoLostWakeup(run: seq<State>)
    requires Runs.IsRun(Init, Next, run)
    ensures forall i :: 0 <= i < |run| ==>
              && run[i].dequeued + run[i].queue == run[i].enqueued
              && (!run[i].stopped && run[i].queue != [] ==> WakeupDue(run[i]))
  {
    forall s, t | Inv(s) && Next(s, t) ensures Inv(t) { StepKeeps(s, t); }
    Runs.InductiveHolds(Init, Next, Inv, run);
    forall i | 0 <= i < |run| ensures Inv(run[i]) {}
  }

  /** The loop's own second look is never what saves an event: whenever it signals, a wakeup is due anyway. */
  lemma ResignalIsRedundant(run: seq<State>, i: nat)
    requires Runs.IsRun(Init, Next, run) && i < |run| && !run[i].stopped
    requires run[i].loop.Signalling? && run[i].queue != []
    ensures run[i].token || run[i].appended != {}
  {
    NoLostWakeup(run);
  }

  /** Steps of producers that already appended and of the loop. */
  ghost predicate Settling(s: State, t: State) { !s.panicked && ((exists p :: Signal(s, t, p)) || LoopStep(s, t)) }

  ghost function Distance(s: State): nat {
    if s.queue == [] then 0
    else 8 * |s.appended|
         + match s.loop
           case Received => 1 case Selecting => 2 case Signalling => 3 case Checking => 4 case Working => 5
           case Exited => 6
  }

  /** Delivery: until Stopped is set, from every reachable state the threads on their way empty the queue, and every
      event ever enqueued has then been handed out in order. */
  lemma EveryEventIsDelivered(s: State) returns (t: State)
    requires Inv(s) && !s.stopped
    ensures Runs.Reaches(Settling, s, t) && t.queue == [] && t.dequeued == t.enqueued == s.enqueued
    decreases Distance(s)
  {
    Runs.ReachesSelf(Settling, s);
    if s.queue == [] {
      t := s;
      assert s.dequeued + s.queue == s.dequeued;
    } else {
      var u := SettleOnce(s);
      assert Inv(u) by { StepKeeps(s, u); }
      t := EveryEventIsDelivered(u);
      Runs.ReachesStep(Settling, s, s, u);
      Runs.ReachesTrans(Settling, s, u, t);
    }
  }

  lemma SettleOnce(s: State) returns (u: State)
    requires Inv(s) && !s.stopped && s.queue != []
    ensures Settling(s, u) && Next(s, u) && !u.stopped && u.enqueued == s.enqueued
    ensures Distance(u) < Distance(s)
  {
    if s.loop.Received? {
      u := s.(loop := Working, queue := [], dequeued := s.dequeued + s.queue);
      assert Dequeue(s, u);
    } else if s.appended != {} {
      var p :| p in s.appended;
      u := s.(appended := s.appended - {p}, token := true);
      assert Signal(s, u, p);
    } else if s.loop.Selecting? {
      u := s.(loop := Received, token := false);
      assert Receive(s, u);
    } else if s.loop.Working? {
      u := s.(loop := Checking);
      assert EndBatch(s, u);
    } else if s.loop.Checking? {
      u := s.(loop := Signalling);
      assert Check(s, u);
    } else {
      u := s.(loop := Selecting, token := true);
      assert Resignal(s, u);
    }
  }

  // ----- what a stop breaks -----

  /** Everything but a further stop. */
  ghost predicate NextUnstopped(s: State, t: State) {
    && !s.panicked
    && (|| (exists p, e :: Append(s, t, p, e)) || (exists p :: Signal(s, t, p))
        || LoopStep(s, t) || Stopping(s, t) || CloseQueued(s, t))
  }

  ghost predicate Lost(s: State) { s.queue != [] && !WakeupDue(s) }

  /** Steps until a wakeup is lost. */
  ghost function UntilLost(s: State): nat {
    (if s.token then 1 else 0) + 2 * |s.appended| + (if s.queue == [] then 3 else 0)
    + if s.loop.Received? then 4 else 0
  }

  lemma LoseOnce(s: State) returns (t: State)
    requires s.stopped && !s.panicked && !Lost(s)
    ensures NextUnstopped(s, t) && t.stopped && (!t.panicked || Lost(t)) && UntilLost(t) < UntilLost(s)
  {
    if s.loop.Received? {
      t := s.(loop := Working, queue := [], dequeued := s.dequeued + s.queue);
      assert Dequeue(s, t);
    } else if s.queue == [] {
      var p := Runs.FreshNumber(s.appended);
      t := s.(queue := [0], appended := s.appended + {p}, enqueued := s.enqueued + [0]);
      assert s.queue + [0] == [0];
      assert Append(s, t, p, 0);
    } else if s.appended != {} {
      var p :| p in s.appended;
      t := s.(appended := s.appended - {p}, token := s.token || !s.closed, panicked := s.closed);
      assert Signal(s, t, p);
    } else {
      t := s.(token := false);
      assert Stopping(s, t);
    }
  }

  lemma StopLoses(s: State) returns (t: State)
    requires s.stopped && (!s.panicked || Lost(s))
    ensures Runs.Reaches(NextUnstopped, s, t) && Lost(t)
    decreases UntilLost(s)
  {
    Runs.ReachesSelf(NextUnstopped, s);
    if Lost(s) {
      t := s;
    } else {
      var u := LoseOnce(s);
      t := StopLoses(u);
      Runs.ReachesStep(NextUnstopped, s, s, u);
      Runs.ReachesTrans(NextUnstopped, s, u, t);
    }
  }

  /** The guarantee ends with Stopped, and only there: from a reachable state, without a further stop, events can be
      left in the queue with no wakeup due exactly when the flag is set. */
  lemma WakeupLostIffStopped(s: State)
    requires Inv(s) && !s.panicked
    ensures (exists t :: Runs.Reaches(NextUnstopped, s, t) && Lost(t)) <==> s.stopped
  {
    if s.stopped {
      var t := StopLoses(s);
    } else {
      var inv := (x: State) => Inv(x) && !x.stopped;
      forall x, y | inv(x) && NextUnstopped(x, y) ensures inv(y) { StepKeeps(x, y); }
      forall t | Runs.Reaches(NextUnstopped, s, t) ensures !Lost(t) {
        Runs.ReachesKeeps(NextUnstopped, inv, s, t);
        assert inv(t);
      }
    }
  }

  // ----- when a signal panics -----

  /** Without new producers and without a further stop. */
  ghost predicate NextQuiet(s: State, t: State) {
    !s.panicked && ((exists p :: Signal(s, t, p)) || LoopStep(s, t) || Stopping(s, t) || CloseQueued(s, t))
  }

  /** Steps until the channel is closed. */
  ghost function UntilClosed(s: State): nat {
    match s.loop
    case Received => 7 case Working => 6 case Checking => 5 case Signalling => 4 case Selecting => 3
    case Exited => if s.closed then 0 else 1
  }

  /** A stopped loop can always get to its cleanup, whatever the producers do. */
  lemma CloseOnce(s: State) returns (t: State)
    requires s.stopped && !s.panicked && !(s.loop.Exited? && s.closed)
    ensures NextQuiet(s, t) && t.stopped && !t.panicked && t.appended == s.appended && UntilClosed(t) < UntilClosed(s)
  {
    match s.loop
    case Received =>
      t := s.(loop := Working, queue := [], dequeued := s.dequeued + s.queue);
      assert Dequeue(s, t);
    case Working => t := s.(loop := Checking); assert EndBatch(s, t);
    case Checking => t := s.(loop := if s.queue == [] then Selecting else Signalling); assert Check(s, t);
    case Signalling => t := s.(loop := Selecting, token := true); assert Resignal(s, t);
    case Selecting => t := s.(loop := Exited); assert Stopping(s, t);
    case Exited => t := s.(closed := true); assert CloseQueued(s, t);
  }

  lemma StopPanics(s: State) returns (t: State)
    requires s.stopped && !s.panicked && s.appended != {}
    ensures Runs.Reaches(NextQuiet, s, t) && t.panicked
    decreases UntilClosed(s)
  {
    Runs.ReachesSelf(NextQuiet, s);
    if s.closed && s.loop.Exited? {
      var p :| p in s.appended;
      t := s.(appended := s.appended - {p}, panicked := true);
      assert Signal(s, t, p);
      Runs.ReachesStep(NextQuiet, s, s, t);
    } else {
      var u := CloseOnce(s);
      t := StopPanics(u);
      Runs.ReachesStep(NextQuiet, s, s, u);
      Runs.ReachesTrans(NextQuiet, s, u, t);
    }
  }

  /** Cleanup closes the channel under a producer that has appended and not yet signalled: without new producers and
      without a further stop, a signal can panic exactly when the flag is set and such a producer is on its way. */
  lemma SignalPanicsIff(s: State)
    requires Inv(s) && !s.panicked
    ensures (exists t :: Runs.Reaches(NextQuiet, s, t) && t.panicked) <==> s.stopped && s.appended != {}
  {
    if s.stopped && s.appended != {} {
      var t := StopPanics(s);
    } else {
      var inv := (x: State) => Inv(x) && !x.panicked && (!x.stopped || x.appended == {});
      forall x, y | inv(x) && NextQuiet(x, y) ensures inv(y) { StepKeeps(x, y); }
      forall t | Runs.Reaches(NextQuiet, s, t) ensures !t.panicked {
        Runs.ReachesKeeps(NextQuiet, inv, s, t);
        assert inv(t);
      }
    }
  }

  /** The handler's queue and channel as one thread at a time uses them. */
  class RepoHandler {
    var queue: seq<Event>
    var queued: bool
    ghost var appended: set<Producer>
    ghost var loop: RunLoop
    ghost var stopped: bool
    ghost var closed: bool
    ghost var panicked: bool
    ghost var enqueued: seq<Event>
    ghost var dequeued: seq<Event>

    ghost function View(): State
      reads this
    {
      State(queue, queued, appended, loop, stopped, closed, panicked, enqueued, dequeued)
    }

    constructor ()
      ensures Init(View())
    {
      queue, queued, appended, loop := [], false, {}, Selecting;
      stopped, closed, panicked, enqueued, dequeued := false, false, false, [], [];
    }

    method EventQueueUpdate()
      modifies this`queued
      ensures View() == old(View()).(token := true)
    {
      if !queued { queued := true; }
    }

    /** Append, then signal: the two steps of a producer. */
    method EnqueueEvent(event: Event, ghost p: Producer)
      requires p !in appended && !closed && !panicked
      modifies this
      ensures Runs.Reaches(Next, old(View()), View())
      ensures View() == old(View()).(queue := old(queue) + [event], enqueued := old(enqueued) + [event], token := true)
    {
      ghost var s := View();
      queue := queue + [event];
      enqueued := enqueued + [event];
      appended := appended + {p};
      ghost var t := View();
      assert Append(s, t, p, event);
      EventQueueUpdate();
      appended := appended - {p};
      assert Signal(t, View(), p);
      Runs.ReachesSelf(Next, s);
      Runs.ReachesStep(Next, s, s, t);
      Runs.ReachesStep(Next, s, t, View());
    }

    /** The run loop takes all that is queued, in order. */
    method DequeueEvents() returns (events: seq<Event>)
      requires loop.Received? && Inv(View())
      modifies this
      ensures Dequeue(old(View()), View()) && Inv(View())
      ensures events == old(queue) && dequeued == enqueued == old(dequeued) + events
    {
      StepKeeps(View(), View().(loop := Working, queue := [], dequeued := dequeued + queue));
      events, queue := queue, [];
      loop, dequeued := Working, dequeued + events;
    }
  }
}
