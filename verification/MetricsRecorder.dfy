/** The in-memory queue of the file-backed metrics recorder (fileMetricsRecorder of api/service/metrics.go), as
    atomic steps of the recording requests and of the one worker. */
module MetricsRecorder {

  datatype Kind = View | Download | Other(name: string)

  /** `day` is the UTC day of the occurrence, or empty for an event that has no time yet. */
  datatype Event = Event(pluginId: int, versionId: int, kind: Kind, day: string)

  const UNSET := ""

  const QUEUE_SIZE := 512
  const BATCH_SIZE := 64

  predicate Valid(e: Event) {
    e.pluginId > 0 && !e.kind.Other?
  }

  function Stamped(e: Event, today: string): Event {
    if e.day == UNSET then e.(day := today) else e
  }

  /** `flushed` lists the batches handed over so far; `draining` means the worker has seen the stop signal. */
  datatype State = State(queue: seq<Event>, buffer: seq<Event>, dropped: nat, flushed: seq<seq<Event>>,
                         stopped: bool, draining: bool, done: bool)

  const IDLE := State([], [], 0, [], false, false, false)

  datatype Step = Offer(event: Event, today: string) | Take | Tick | Close | BeginDrain | DrainOne | Finish

  /** A stop signal, a queued event and a tick may be ready together; the worker takes any one of them. */
  predicate Enabled(s: State, step: Step) {
    match step
    case Offer(_, _) => true
    case Close => true
    case Take => !s.draining && s.queue != []
    case Tick => !s.draining
    case BeginDrain => s.stopped && !s.draining
    case DrainOne => s.draining && !s.done && s.queue != []
    case Finish => s.draining && !s.done && s.queue == []
  }

  function Offered(s: State, e: Event, today: string): State {
    if !Valid(e) then s
    else if |s.queue| < QUEUE_SIZE then s.(queue := s.queue + [Stamped(e, today)])
    else s.(dropped := s.dropped + 1)
  }

  function Flushed(s: State): State {
    if s.buffer == [] then s else s.(flushed := s.flushed + [s.buffer], buffer := [])
  }

  function Moved(s: State): State
    requires s.queue != []
  {
    s.(queue := s.queue[1..], buffer := s.buffer + [s.queue[0]])
  }

  function Next(s: State, step: Step): State
    requires Enabled(s, step)
  {
    match step
    case Offer(e, today) => Offered(s, e, today)
    case Take => var t := Moved(s); if |t.buffer| >= BATCH_SIZE then Flushed(t) else t
    case Tick => Flushed(s)
    case Close => s.(stopped := true)
    case BeginDrain => s.(draining := true)
    case DrainOne => Moved(s)
    case Finish => Flushed(s).(done := true)
  }

  class FileMetricsRecorder {
    var queue: seq<Event>
    var buffer: seq<Event>
    var dropped: nat
    var flushed: seq<seq<Event>>
    var stopped: bool
    var draining: bool
    var done: bool

    constructor ()
      ensures View() == IDLE
    {
      queue, buffer, dropped, flushed, stopped, draining, done := [], [], 0, [], false, false, false;
    }

    function View(): State
      reads this
    {
      State(queue, buffer, dropped, flushed, stopped, draining, done)
    }

    method Record(event: Event, today: string)
      modifies this
      ensures View() == Next(old(View()), Offer(event, today))
    {
      if event.pluginId <= 0 {
        return;
      }
      if event.kind != Kind.View && event.kind != Download {
        return;
      }
      var stamped := event;
      if stamped.day == UNSET {
        stamped := stamped.(day := today);
      }
      if |queue| < QUEUE_SIZE {
        queue := queue + [stamped];
      } else {
        dropped := dropped + 1;
      }
    }

    method Flush()
      modifies this`buffer, this`flushed
      ensures View() == Flushed(old(View()))
    {
      if |buffer| == 0 {
        return;
      }
      flushed := flushed + [buffer];
      buffer := [];
    }

    method TakeEvent()
      requires Enabled(View(), Take)
      modifies this
      ensures View() == Next(old(View()), Take)
    {
      buffer, queue := buffer + [queue[0]], queue[1..];
      if |buffer| >= BATCH_SIZE {
        Flush();
      }
    }

    /** The stop branch of the worker, when nobody records meanwhile: everything left goes out as one batch. */
    method Drain()
      requires Enabled(View(), BeginDrain)
      modifies this
      ensures View() == Drained(old(View()))
    {
      draining := true;
      while queue != []
        invariant draining && Drained(View()) == Drained(old(View()))
        decreases |queue|
      {
        assert buffer + queue == buffer + [queue[0]] + queue[1..];
        buffer, queue := buffer + [queue[0]], queue[1..];
      }
      assert buffer + queue == buffer;
      Flush();
      done := true;
    }
  }

  /** What draining amounts to. */
  function Drained(s: State): State {
    var rest := s.buffer + s.queue;
    s.(queue := [], buffer := [], draining := true, done := true,
       flushed := if rest == [] then s.flushed else s.flushed + [rest])
  }

  /** The worker's own steps from there on, when nobody records meanwhile. */
  function DrainSteps(s: State): State
    requires s.draining && !s.done
    decreases |s.queue|
  {
    if s.queue == [] then Next(s, Finish) else DrainSteps(Next(s, DrainOne))
  }

  lemma {:induction false} DrainingFinishes(s: State)
    requires s.draining && !s.done
    ensures DrainSteps(s) == Drained(s)
    decreases |s.queue|
  {
    if s.queue != [] {
      DrainingFinishes(Next(s, DrainOne));
      assert s.buffer + [s.queue[0]] + s.queue[1..] == s.buffer + s.queue;
    } else {
      assert s.buffer + s.queue == s.buffer;
    }
  }

  // ----- conservation ---------------------------------------------------------------------------------

  function Joined(batches: seq<seq<Event>>): seq<Event> {
    if batches == [] then [] else Joined(batches[..|batches| - 1]) + batches[|batches| - 1]
  }

  /** Everything admitted so far, in order of admission. */
  function Kept(s: State): seq<Event> {
    Joined(s.flushed) + s.buffer + s.queue
  }

  predicate Admits(s: State, step: Step) {
    step.Offer? && Valid(step.event) && |s.queue| < QUEUE_SIZE
  }

  predicate Drops(s: State, step: Step) {
    step.Offer? && Valid(step.event) && !Admits(s, step)
  }

  lemma FlushKeeps(s: State)
    ensures Kept(Flushed(s)) == Kept(s) && Flushed(s).queue == s.queue && Flushed(s).buffer == []
  {
  }

  lemma MoveKeeps(s: State)
    requires s.queue != []
    ensures Kept(Moved(s)) == Kept(s)
  {
    assert s.queue == [s.queue[0]] + s.queue[1..];
  }

  /** No step loses, repeats or reorders an admitted event; only an offer to a full queue is dropped. */
  lemma StepConserves(s: State, step: Step)
    requires Enabled(s, step)
    ensures var t := Next(s, step);
      Kept(t) == Kept(s) + (if Admits(s, step) then [Stamped(step.event, step.today)] else []) &&
      t.dropped == s.dropped + (if Drops(s, step) then 1 else 0)
  {
    hide Joined, Kept;
    match step
    case Offer(e, today) =>
      if Admits(s, step) {
        OfferKeeps(s, e, today);
      } else {
        SameKept(s, Next(s, step));
      }
    case Take => MoveKeeps(s); FlushKeeps(Moved(s));
    case Tick => FlushKeeps(s);
    case Close => SameKept(s, Next(s, step));
    case BeginDrain => SameKept(s, Next(s, step));
    case DrainOne => MoveKeeps(s);
    case Finish => FlushKeeps(s); SameKept(Flushed(s), Next(s, step));
  }

  lemma OfferKeeps(s: State, e: Event, today: string)
    requires Valid(e) && |s.queue| < QUEUE_SIZE
    ensures Kept(Offered(s, e, today)) == Kept(s) + [Stamped(e, today)]
  {
  }

  lemma SameKept(s: State, t: State)
    requires t.flushed == s.flushed && t.buffer == s.buffer && t.queue == s.queue
    ensures Kept(t) == Kept(s)
  {
  }

  ghost predicate Run(states: seq<State>, steps: seq<Step>) {
    && |states| == |steps| + 1 && states[0] == IDLE
    && forall i :: 0 <= i < |steps| ==> Enabled(states[i], steps[i]) && states[i + 1] == Next(states[i], steps[i])
  }

  /** The events admitted by the first n steps, each with its day. */
  ghost function Admitted(states: seq<State>, steps: seq<Step>, n: nat): seq<Event>
    requires n <= |steps| < |states|
  {
    if n == 0 then []
    else
      Admitted(states, steps, n - 1) +
      if Admits(states[n - 1], steps[n - 1]) then [Stamped(steps[n - 1].event, steps[n - 1].today)] else []
  }

  function ValidOffers(steps: seq<Step>, n: nat): nat
    requires n <= |steps|
  {
    if n == 0 then 0
    else ValidOffers(steps, n - 1) + if steps[n - 1].Offer? && Valid(steps[n - 1].event) then 1 else 0
  }

  /** At every point of every run: the flushed batches, the buffer and the queue hold, in order, exactly the
      admitted events, and valid events offered are dropped, queued, buffered or flushed. */
  lemma {:induction false} RunConserves(states: seq<State>, steps: seq<Step>, n: nat)
    requires Run(states, steps) && n <= |steps|
    ensures Kept(states[n]) == Admitted(states, steps, n)
    ensures ValidOffers(steps, n) ==
      states[n].dropped + |states[n].queue| + |states[n].buffer| + |Joined(states[n].flushed)|
  {
    if n > 0 {
      RunConserves(states, steps, n - 1);
      hide Next, Joined;
      StepConserves(states[n - 1], steps[n - 1]);
    }
  }

  /** Only valid events are ever admitted, and every one has its day, if the clock has one. */
  lemma {:induction false} AdmittedAreValid(states: seq<State>, steps: seq<Step>, n: nat)
    requires n <= |steps| < |states|
    requires forall i :: 0 <= i < n && steps[i].Offer? ==> steps[i].today != UNSET
    ensures forall e :: e in Admitted(states, steps, n) ==> Valid(e) && e.day != UNSET
  {
    if n > 0 {
      AdmittedAreValid(states, steps, n - 1);
    }
  }

  lemma {:induction false} BatchIsJoined(batches: seq<seq<Event>>, i: nat, e: Event)
    requires i < |batches| && e in batches[i]
    ensures e in Joined(batches)
  {
    if i < |batches| - 1 {
      BatchIsJoined(batches[..|batches| - 1], i, e);
    }
  }

  /** Every batch that a run hands over consists of valid events with their days. */
  lemma BatchesAreValid(states: seq<State>, steps: seq<Step>, n: nat, i: nat)
    requires Run(states, steps) && n <= |steps| && i < |states[n].flushed|
    requires forall k :: 0 <= k < n && steps[k].Offer? ==> steps[k].today != UNSET
    ensures forall e :: e in states[n].flushed[i] ==> Valid(e) && e.day != UNSET
  {
    hide Joined, Next;
    RunConserves(states, steps, n);
    AdmittedAreValid(states, steps, n);
    hide Admitted;
    forall e | e in states[n].flushed[i]
      ensures e in Joined(states[n].flushed)
    {
      BatchIsJoined(states[n].flushed, i, e);
    }
  }

  // ----- bounds and shutdown ------------------------------------------------------------------------------

  /** The queue never outgrows its size, the buffer stays below a batch until the worker drains, and every batch
      but the one that draining flushes is small. */
  ghost predicate Bounded(s: State) {
    && |s.queue| <= 512 && (!s.draining ==> |s.buffer| < 64) && (s.draining ==> s.stopped)
    && (s.done ==> s.draining && s.buffer == [])
    && (forall i :: 0 <= i < |s.flushed| - (if s.done then 1 else 0) ==> 1 <= |s.flushed[i]| <= 64)
  }

  lemma StepBounded(s: State, step: Step)
    requires Bounded(s) && Enabled(s, step)
    ensures Bounded(Next(s, step))
  {
  }

  lemma {:induction false} RunBounded(states: seq<State>, steps: seq<Step>, n: nat)
    requires Run(states, steps) && n <= |steps|
    ensures Bounded(states[n])
  {
    hide Next;
    if n > 0 {
      RunBounded(states, steps, n - 1);
      StepBounded(states[n - 1], steps[n - 1]);
    }
  }

  /** If nothing is offered from some point on before the worker finished, then once it has finished the queue and
      the buffer are empty and every event ever admitted has been flushed. */
  lemma {:induction false} QuietStopFlushesAll(states: seq<State>, steps: seq<Step>, i: nat, n: nat)
    requires Run(states, steps) && i <= n <= |steps| && !states[i].done && states[n].done
    requires forall k :: i <= k < n ==> !steps[k].Offer?
    ensures states[n].queue == [] && states[n].buffer == []
    ensures Joined(states[n].flushed) == Admitted(states, steps, n)
  {
    RunBounded(states, steps, n);
    RunConserves(states, steps, n);
    hide Admitted;
    QuietQueue(states, steps, i, n);
  }

  lemma {:induction false} QuietQueue(states: seq<State>, steps: seq<Step>, i: nat, n: nat)
    requires Run(states, steps) && i <= n <= |steps| && !states[i].done
    requires forall k :: i <= k < n ==> !steps[k].Offer?
    ensures states[n].done ==> states[n].queue == []
    decreases n
  {
    if i < n {
      QuietQueue(states, steps, i, n - 1);
      RunBounded(states, steps, n - 1);
      assert states[n] == Next(states[n - 1], steps[n - 1]);
    }
  }

  /** What is offered after the worker finished is queued and never flushed. */
  lemma {:induction false} NothingIsFlushedAfterwards(states: seq<State>, steps: seq<Step>, i: nat, n: nat)
    requires Run(states, steps) && i <= n <= |steps| && states[i].done
    ensures states[n].done && states[n].flushed == states[i].flushed && states[i].queue <= states[n].queue
    decreases n
  {
    if i < n {
      NothingIsFlushedAfterwards(states, steps, i, n - 1);
      RunBounded(states, steps, n - 1);
      assert states[n] == Next(states[n - 1], steps[n - 1]);
    }
  }

  // ----- single steps -------------------------------------------------------------------------------------

  /** Recording, exactly: an event without a plugin or of a kind that is neither view nor download is ignored; any other
      is dropped if 512 are queued, and else queued with its day, or today if it has none. */
  lemma OfferExactly(s: State, e: Event, today: string)
    ensures var t := Next(s, Offer(e, today));
      if e.pluginId <= 0 || (e.kind != View && e.kind != Download) then t == s
      else if |s.queue| >= 512 then t == s.(dropped := s.dropped + 1)
      else t == s.(queue := s.queue + [Event(e.pluginId, e.versionId, e.kind, if e.day == "" then today else e.day)])
  {
  }

  /** The worker, exactly: it hands its buffer over when the 64th event arrives, on a tick, and at its end, and never
      an empty one. */
  lemma WorkerExactly(s: State, step: Step)
    requires Enabled(s, step) && !step.Offer? && !step.Close?
    ensures var t := Next(s, step);
      var taken := if step.Take? || step.DrainOne? then s.buffer + [s.queue[0]] else s.buffer;
      var hands := taken != [] && (step.Tick? || step.Finish? || (step.Take? && |taken| >= 64));
      t.flushed == (if hands then s.flushed + [taken] else s.flushed) &&
      t.buffer == (if hands then [] else taken) &&
      t.queue == (if step.Take? || step.DrainOne? then s.queue[1..] else s.queue) &&
      t.dropped == s.dropped && t.stopped == s.stopped &&
      t.draining == (s.draining || step.BeginDrain?) && t.done == (s.done || step.Finish?)
  {
  }

  /** Recording and stopping are always possible, and a stopped worker always has a next step until it is done. */
  lemma NeverStuck(s: State, e: Event, today: string)
    ensures Enabled(s, Offer(e, today)) && Enabled(s, Close)
    ensures s.stopped && !s.done ==> Enabled(s, BeginDrain) || Enabled(s, DrainOne) || Enabled(s, Finish)
    ensures !s.draining ==> Enabled(s, Tick) && (s.queue != [] ==> Enabled(s, Take))
  {
  }
}
