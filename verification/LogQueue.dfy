/**
 * The Hub's log writer (`logging.rs`): many producers, a bounded queue that never blocks them, and
 * one writer that drains it on shutdown.
 */
module LogQueue {
  const CAPACITY := 512

  datatype Level = Error | Warn | Info | Debug | Trace

  datatype Event = Event(level: Level, source: string, message: string)

  datatype Record = Record(level: Level, source: string, message: string)

  /** `on_event`'s filter: hub and library events of level info and up, but never the writer's own. */
  predicate Passes(e: Event) {
    && (e.level.Error? || e.level.Warn? || e.level.Info?)
    && ("proxy_panel_hub" <= e.source || "pp_" <= e.source)
    && !("proxy_panel_hub::logging" <= e.source)
  }

  function ToRecord(e: Event): Record {
    Record(e.level, e.source, if e.message == "" then "event at " + e.source else e.message)
  }

  /** Where the writer is in its loop: waiting, inserting a record, or about to print the drops. */
  datatype Phase = Waiting | Inserting(record: Record) | Printing

  /**
   * The channel, the drop counter, the stop signal and the writer, with the history of the writer
   * (what it tried to insert, how many drops it has printed).  `uncounted` are sends that have been
   * refused to producers which have not yet got round to counting them.
   */
  datatype Pipeline = Pipeline(
    queue: seq<Record>, uncounted: nat, dropped: nat, stopped: bool, draining: bool, finished: bool,
    phase: Phase, attempted: seq<Record>, printed: nat)

  const EMPTY := Pipeline([], 0, 0, false, false, false, Waiting, [], 0)

  /** The steps that interleave: two of a producer, the owner's, and those of the writer. */
  datatype Action =
    | Send(event: Event)       // any producer logs something: the filter, and `try_send`
    | Count                    // any producer whose send was refused counts the drop
    | Stop                     // the owner asks the writer to stop
    | Close                    // the waiting writer notices the stop signal
    | Write                    // the writer's next step: take, insert, print, or end

  /** `receiver.close()` makes every later `try_send` fail; records already queued stay. */
  function Sent(s: Pipeline, e: Event): Pipeline {
    if !Passes(e) then s
    else if s.draining || |s.queue| >= CAPACITY then s.(uncounted := s.uncounted + 1)
    else s.(queue := s.queue + [ToRecord(e)])
  }

  function Counted(s: Pipeline): Pipeline {
    if s.uncounted == 0 then s else s.(uncounted := s.uncounted - 1, dropped := s.dropped + 1)
  }

  /** One step of the writer; whether the insert works makes no difference to the accounts. */
  function Written(s: Pipeline): Pipeline {
    match s.phase
    case Inserting(r) => s.(phase := Printing, attempted := s.attempted + [r])
    case Printing => s.(phase := Waiting, printed := s.printed + s.dropped, dropped := 0)
    case Waiting =>
      if s.finished then s
      else if s.queue != [] then s.(queue := s.queue[1..], phase := Inserting(s.queue[0]))
      else if s.draining then s.(finished := true)
      else s
  }

  predicate MayClose(s: Pipeline) { s.stopped && s.phase.Waiting? && !s.draining && !s.finished }

  function Next(s: Pipeline, a: Action): Pipeline {
    match a
    case Send(e) => Sent(s, e)
    case Count => Counted(s)
    case Stop => s.(stopped := true)
    case Close => if MayClose(s) then s.(draining := true) else s
    case Write => Written(s)
  }

  function Run(s: Pipeline, actions: seq<Action>): Pipeline {
    if actions == [] then s else Next(Run(s, actions[..|actions| - 1]), actions[|actions| - 1])
  }

  /** The record a step logs, if any. */
  function NowLogged(a: Action): seq<Record> {
    if a.Send? && Passes(a.event) then [ToRecord(a.event)] else []
  }

  /** The record the queue accepts in a step, if any. */
  function NowAccepted(s: Pipeline, a: Action): seq<Record> {
    if s.draining || |s.queue| >= CAPACITY then [] else NowLogged(a)
  }

  /** The records of the events of a run that pass the filter, in the order they were logged. */
  function Logged(actions: seq<Action>): seq<Record> {
    if actions == [] then [] else Logged(actions[..|actions| - 1]) + NowLogged(actions[|actions| - 1])
  }

  /** The records the queue accepted, in the order they were sent. */
  function Accepted(s: Pipeline, actions: seq<Action>): seq<Record> {
    if actions == [] then []
    else
      var front := actions[..|actions| - 1];
      Accepted(s, front) + NowAccepted(Run(s, front), actions[|actions| - 1])
  }

  /** The writer's own events never reach the queue or the drop count, so a failing insert cannot feed itself. */
  lemma WriterIsNotTraced(s: Pipeline, e: Event)
    requires "proxy_panel_hub::logging" <= e.source
    ensures Next(s, Send(e)) == s
  {
  }

  /** Events of level debug or trace, or of other crates, are not recorded; all the rest are. */
  lemma RecordedExactly(s: Pipeline, e: Event)
    ensures NowLogged(Send(e)) != [] <==>
      && !e.level.Debug? && !e.level.Trace? && !("proxy_panel_hub::logging" <= e.source)
      && ("proxy_panel_hub" <= e.source || "pp_" <= e.source)
    ensures NowLogged(Send(e)) == [] ==> Next(s, Send(e)) == s
  {
  }

  /** A record keeps level and source, and its message is never empty. */
  lemma RecordsHaveMessages(e: Event)
    ensures ToRecord(e).level == e.level && ToRecord(e).source == e.source && ToRecord(e).message != ""
    ensures e.message != "" ==> ToRecord(e).message == e.message
    ensures e.message == "" ==> ToRecord(e).message == "event at " + e.source
  {
  }

  /** A send that passes is accepted exactly while fewer than 512 records are queued and the queue is open. */
  lemma AcceptedExactly(s: Pipeline, e: Event)
    requires Passes(e)
    ensures Next(s, Send(e)) ==
      if |s.queue| < 512 && !s.draining then s.(queue := s.queue + [ToRecord(e)])
      else s.(uncounted := s.uncounted + 1)
  {
  }

  /** Each refused send is counted once. */
  lemma CountsExactly(s: Pipeline)
    ensures s.uncounted > 0 ==> Next(s, Count) == s.(uncounted := s.uncounted - 1, dropped := s.dropped + 1)
    ensures s.uncounted == 0 ==> Next(s, Count) == s
  {
  }

  /** A stop is noticed by the waiting writer, and only a stop closes the queue. */
  lemma StopCloses(s: Pipeline)
    requires s.phase.Waiting? && !s.finished
    ensures Next(Next(s, Stop), Close).draining
    ensures !s.stopped && !s.draining ==> Next(s, Close) == s
  {
  }

  /** `a` is `b` with some elements left out. */
  ghost predicate Thinned(a: seq<Record>, b: seq<Record>)
    decreases |b|
  {
    if b == [] then a == []
    else Thinned(a, b[..|b| - 1]) || (a != [] && a[|a| - 1] == b[|b| - 1] && Thinned(a[..|a| - 1], b[..|b| - 1]))
  }

  /** The record being inserted, if any. */
  function InFlight(s: Pipeline): seq<Record> {
    if s.phase.Inserting? then [s.phase.record] else []
  }

  /** Every record that got into the queue, in the order it leaves it. */
  function Records(s: Pipeline): seq<Record> {
    s.attempted + InFlight(s) + s.queue
  }

  /** The books of a pipeline that was given `logged` and took `accepted` of it. */
  ghost predicate Balanced(logged: seq<Record>, accepted: seq<Record>, s: Pipeline) {
    && |logged| == |s.attempted| + |InFlight(s)| + |s.queue| + s.printed + s.dropped + s.uncounted
    && Records(s) == accepted
    && Thinned(accepted, logged)
    && |s.queue| <= CAPACITY
    && (s.finished ==> s.queue == [] && s.phase.Waiting? && s.draining)
    && (s.draining ==> s.stopped)
  }

  lemma ThinnedAppend(a: seq<Record>, b: seq<Record>, r: Record)
    requires Thinned(a, b)
    ensures Thinned(a, b + [r]) && Thinned(a + [r], b + [r])
  {
    assert (b + [r])[..|b|] == b && (a + [r])[..|a|] == a;
  }

  lemma SendBalances(logged: seq<Record>, accepted: seq<Record>, s: Pipeline, e: Event)
    requires Balanced(logged, accepted, s) && Passes(e)
    ensures Balanced(logged + [ToRecord(e)], accepted + NowAccepted(s, Send(e)), Sent(s, e))
  {
    var r := ToRecord(e);
    ThinnedAppend(accepted, logged, r);
    assert s.attempted + InFlight(s) + (s.queue + [r]) == (s.attempted + InFlight(s) + s.queue) + [r];
    assert accepted + [] == accepted;
    hide Passes, ToRecord, Thinned;
  }

  /** A step of the writer moves at most one record on, and keeps their order. */
  lemma WriteKeepsRecords(s: Pipeline)
    ensures Records(Written(s)) == Records(s)
    ensures var s' := Written(s);
      |s'.attempted| + |InFlight(s')| + |s'.queue| + s'.printed + s'.dropped
        == |s.attempted| + |InFlight(s)| + |s.queue| + s.printed + s.dropped
  {
    if s.phase.Waiting? && !s.finished && s.queue != [] {
      assert s.attempted + [s.queue[0]] + s.queue[1..] == s.attempted + [] + s.queue;
    }
  }

  lemma WriteBalances(logged: seq<Record>, accepted: seq<Record>, s: Pipeline)
    requires Balanced(logged, accepted, s)
    ensures Balanced(logged, accepted, Written(s))
  {
    hide Thinned, Records;
    WriteKeepsRecords(s);
  }

  /** One step of anyone keeps the books. */
  lemma StepBalances(logged: seq<Record>, accepted: seq<Record>, s: Pipeline, a: Action)
    requires Balanced(logged, accepted, s)
    ensures Balanced(logged + NowLogged(a), accepted + NowAccepted(s, a), Next(s, a))
  {
    assert logged + [] == logged && accepted + [] == accepted;
    match a {
      case Send(e) =>
        if Passes(e) {
          SendBalances(logged, accepted, s, e);
          hide Balanced, Sent;
        }
      case Write =>
        WriteBalances(logged, accepted, s);
        hide Balanced, Written;
      case Count => hide Thinned;
      case Stop => hide Thinned;
      case Close => hide Thinned;
    }
  }

  /**
   * Conservation, for every interleaving of the steps of producers, writer and owner: each logged
   * event is an insert attempt, the record in flight, still queued, or a drop that is printed,
   * counted or about to be counted; and what was accepted is attempted exactly once, in the order
   * it was sent.
   */
  lemma {:induction false} EveryEventIsAccountedFor(actions: seq<Action>)
    ensures Balanced(Logged(actions), Accepted(EMPTY, actions), Run(EMPTY, actions))
  {
    hide Next, NowLogged, NowAccepted;
    if actions != [] {
      var front, last := actions[..|actions| - 1], actions[|actions| - 1];
      EveryEventIsAccountedFor(front);
      StepBalances(Logged(front), Accepted(EMPTY, front), Run(EMPTY, front), last);
    }
  }

  // ----- shutdown

  function Writes(actions: seq<Action>): nat {
    if actions == [] then 0
    else Writes(actions[..|actions| - 1]) + if actions[|actions| - 1].Write? then 1 else 0
  }

  /** The steps the writer of a closed queue has left: three for each queued record, and one to end. */
  function StepsLeft(s: Pipeline): nat {
    if s.finished then 0
    else 3 * |s.queue| + (match s.phase case Inserting(_) => 2 case Printing => 1 case Waiting => 0) + 1
  }

  /** A closed queue whose writer has ended, if at all, with nothing left. */
  predicate Closed(s: Pipeline) {
    s.draining && (s.finished ==> s.queue == [] && s.phase.Waiting?)
  }

  lemma DrainStep(s: Pipeline, a: Action)
    requires Closed(s)
    ensures var s' := Next(s, a);
      && Closed(s') && Records(s') == Records(s)
      && StepsLeft(s') == if a.Write? && StepsLeft(s) > 0 then StepsLeft(s) - 1 else StepsLeft(s)
  {
    hide Passes, ToRecord;
    WriteKeepsRecords(s);
  }

  /**
   * Once the queue is closed, nothing enters it and every step of the writer brings it closer to
   * its end, whatever producers do in between.
   */
  lemma {:induction false} DrainProgress(s: Pipeline, actions: seq<Action>)
    requires Closed(s)
    ensures var after := Run(s, actions);
      && Closed(after) && Records(after) == Records(s)
      && StepsLeft(after) == if Writes(actions) <= StepsLeft(s) then StepsLeft(s) - Writes(actions) else 0
  {
    hide Closed, Next, Records, StepsLeft;
    if actions != [] {
      var front := actions[..|actions| - 1];
      DrainProgress(s, front);
      DrainStep(Run(s, front), actions[|actions| - 1]);
    }
  }

  /**
   * Shutdown: once the writer has noticed the stop, it ends exactly when it has made the steps it has
   * left, whatever the producers do meanwhile, and then everything accepted has been attempted.
   */
  lemma ShutdownDrains(before: seq<Action>, after: seq<Action>)
    requires Run(EMPTY, before).draining
    ensures var s := Run(EMPTY, before); var end := Run(s, after);
      && (end.finished <==> Writes(after) >= StepsLeft(s))
      && (end.finished ==> end.queue == [] && end.attempted == Accepted(EMPTY, before))
  {
    EveryEventIsAccountedFor(before);
    DrainProgress(Run(EMPTY, before), after);
  }

  // ----- producers and writer

  class LogPipeline {
    var queue: seq<Record>
    var uncounted: nat
    var dropped: nat
    var stopped: bool
    var draining: bool
    var finished: bool
    var phase: Phase
    var attempted: seq<Record>
    var printed: nat

    constructor ()
      ensures State() == EMPTY
    {
      queue, uncounted, dropped, stopped, draining, finished := [], 0, 0, false, false, false;
      phase, attempted, printed := Waiting, [], 0;
    }

    function State(): Pipeline
      reads this
    {
      Pipeline(queue, uncounted, dropped, stopped, draining, finished, phase, attempted, printed)
    }

    method TrySend(r: Record) returns (ok: bool)
      modifies this`queue
      ensures ok <==> !draining && |old(queue)| < CAPACITY
      ensures queue == if ok then old(queue) + [r] else old(queue)
    {
      ok := !draining && |queue| < CAPACITY;
      if ok {
        queue := queue + [r];
      }
    }

    /** `on_event`; between its two steps the others do what `between` says. */
    method OnEvent(e: Event, between: seq<Action>)
      modifies this
      ensures !Passes(e) ==> State() == old(State())
      ensures Passes(e) && old(!draining && |queue| < CAPACITY) ==> State() == Next(old(State()), Send(e))
      ensures Passes(e) && !old(!draining && |queue| < CAPACITY) ==>
        State() == Next(Run(Next(old(State()), Send(e)), between), Count)
    {
      hide Run, Passes, ToRecord;
      if !Passes(e) {
        return;
      }
      var ok := TrySend(ToRecord(e));
      if !ok {
        uncounted := uncounted + 1;
        Others(between);
        if uncounted > 0 {
          uncounted, dropped := uncounted - 1, dropped + 1;
        }
      }
    }

    method RequestStop()
      modifies this
      ensures State() == Next(old(State()), Stop)
    {
      stopped := true;
    }

    /** What anyone else does, one step after another. */
    method Others(actions: seq<Action>)
      modifies this
      ensures State() == Run(old(State()), actions)
    {
      for i := 0 to |actions|
        invariant State() == Run(old(State()), actions[..i])
      {
        assert actions[..i + 1][..i] == actions[..i];
        var s := Next(State(), actions[i]);
        queue, uncounted, dropped, stopped, draining := s.queue, s.uncounted, s.dropped, s.stopped, s.draining;
        finished, phase, attempted, printed := s.finished, s.phase, s.attempted, s.printed;
      }
      assert actions[..|actions|] == actions;
    }

    /** The insert of the record just taken, which the others need not wait for. */
    method Insert(meanwhile: seq<Action>)
      requires phase.Inserting? && forall a :: a in meanwhile ==> !a.Write? && !a.Close?
      modifies this
      ensures State() == Written(Run(old(State()), meanwhile)) && phase.Printing?
    {
      hide Run, Passes, ToRecord;
      var record := phase.record;
      OthersLeaveWriter(State(), meanwhile);
      Others(meanwhile);
      attempted, phase := attempted + [record], Printing;
    }

    method PrintDrops()
      requires phase.Printing?
      modifies this
      ensures State() == Written(old(State()))
    {
      var count := dropped;
      dropped := 0;
      if count > 0 {
        printed := printed + count;
      }
      phase := Waiting;
    }

    /**
     * One turn of the writer: `sawStop` is which branch of the select was taken.  While it inserts
     * the record the others do what `meanwhile` says, and before it takes the count, what `later` says.
     */
    method Turn(sawStop: bool, meanwhile: seq<Action>, later: seq<Action>) returns (done: bool)
      requires phase.Waiting? && (sawStop ==> stopped && !draining && !finished)
      requires forall a :: a in meanwhile + later ==> !a.Write? && !a.Close?
      modifies this
      ensures done == finished && phase.Waiting?
      ensures sawStop ==> State() == Next(old(State()), Close)
      ensures !sawStop && old(finished || queue == []) ==> State() == Next(old(State()), Write)
      ensures !sawStop && !old(finished || queue == []) ==>
        State() == Written(Run(Written(Run(Written(old(State())), meanwhile)), later))
    {
      hide Run, Passes, ToRecord;
      if sawStop {
        draining := true;
        return finished;
      }
      if !finished && queue != [] {
        var record := queue[0];
        queue, phase := queue[1..], Inserting(record);
        Insert(meanwhile);
        OthersLeaveWriter(State(), later);
        Others(later);
        PrintDrops();
      } else if draining {
        finished := true;
      }
      return finished;
    }
  }

  /** Producers and owner do not touch what is the writer's. */
  lemma {:induction false} OthersLeaveWriter(s: Pipeline, actions: seq<Action>)
    requires forall a :: a in actions ==> !a.Write? && !a.Close?
    ensures Run(s, actions).phase == s.phase && Run(s, actions).attempted == s.attempted
    ensures Run(s, actions).finished == s.finished && Run(s, actions).printed == s.printed
    ensures s.queue <= Run(s, actions).queue
  {
    if actions != [] {
      OthersLeaveWriter(s, actions[..|actions| - 1]);
    }
  }
}
