/**
 The driver thread, its command inbox and the parser chain it walks, as interleaved
 atomic steps: one step per lock-held section, queue operation or parser call. Callers,
 the thread that stops the driver and the driver itself may be scheduled in any order.
 The log read and its lines, the verdict of a parser and the moment of a raise are
 arbitrary.
 */
module Driver {
  import opened Options

  type Parser = nat
  type Line = bool  // whether the line parses as an EQ log line

  datatype Effect = AppendParser(parser: Parser) | RemoveParser(parser: Parser) | Other
  datatype Cmd = Cmd(id: nat, effect: Effect)

  // -- the inbox ---------------------------------------------------------------------------

  /** The accept flag, the queue, and where every submission has got to. */
  datatype Inbox = Inbox(
    accepting: bool,
    queue: seq<Cmd>,
    current: Option<Cmd>,      // taken off the queue by the driver, not yet run
    pending: multiset<Cmd>,    // told to run on their callers, not yet run
    submitted: seq<Cmd>,
    accepted: seq<Cmd>,
    ranOnDriver: seq<Cmd>,
    ranOnCallers: seq<Cmd>)

  const EMPTY := Inbox(false, [], None, multiset{}, [], [], [], [])

  /** Reading the flag and enqueueing are one step. */
  function Put(q: Inbox, cmd: Cmd): Inbox {
    if q.accepting
    then q.(submitted := q.submitted + [cmd], queue := q.queue + [cmd], accepted := q.accepted + [cmd])
    else q.(submitted := q.submitted + [cmd], pending := q.pending + multiset{cmd})
  }

  function RanInline(q: Inbox, cmd: Cmd): Inbox {
    q.(pending := q.pending - multiset{cmd}, ranOnCallers := q.ranOnCallers + [cmd])
  }

  function Take(q: Inbox): Inbox
    requires q.queue != []
  {
    q.(current := Some(q.queue[0]), queue := q.queue[1..])
  }

  function RanCurrent(q: Inbox): Inbox
    requires q.current.Some?
  {
    q.(current := None, ranOnDriver := q.ranOnDriver + [q.current.value])
  }

  function InHand(q: Inbox): seq<Cmd> {
    if q.current.Some? then [q.current.value] else []
  }

  /** Every submission is in exactly one place, and the queue is first in, first out. */
  ghost predicate Accounted(q: Inbox) {
    && q.accepted == q.ranOnDriver + (InHand(q) + q.queue)
    && multiset(q.submitted) == multiset(q.accepted) + multiset(q.ranOnCallers) + q.pending
  }

  lemma PutAccounted(q: Inbox, cmd: Cmd)
    requires Accounted(q)
    ensures Accounted(Put(q, cmd))
  {
    AppendLast(q.ranOnDriver, InHand(q), q.queue, cmd);
    assert InHand(Put(q, cmd)) == InHand(q);
  }

  lemma AppendLast(ran: seq<Cmd>, hand: seq<Cmd>, queue: seq<Cmd>, cmd: Cmd)
    ensures ran + (hand + queue) + [cmd] == ran + (hand + (queue + [cmd]))
  {}

  lemma RanInlineAccounted(q: Inbox, cmd: Cmd)
    requires Accounted(q) && cmd in q.pending
    ensures Accounted(RanInline(q, cmd))
  {}

  lemma TakeAccounted(q: Inbox)
    requires Accounted(q) && q.queue != [] && q.current.None?
    ensures Accounted(Take(q))
  {
    assert [q.queue[0]] + q.queue[1..] == q.queue;
  }

  lemma RanCurrentAccounted(q: Inbox)
    requires Accounted(q) && q.current.Some?
    ensures Accounted(RanCurrent(q))
  {
    assert q.ranOnDriver + ([q.current.value] + q.queue) == q.ranOnDriver + [q.current.value] + q.queue;
  }

  // -- the loop ------------------------------------------------------------------------------

  /** One line: the chain as it stood at line start, the parsers asked, in order, and
      whether each of them consumed it. */
  datatype Walk = Walk(start: seq<Parser>, asked: seq<Parser>, verdicts: seq<bool>)
  {
    predicate Consumed() { verdicts != [] && verdicts[|verdicts| - 1] }
  }

  datatype Phase =
    | NotStarted
    | Top                                   // about to test the stop flag
    | Switching                             // the log-switch check
    | Draining                              // the one drain point of an iteration
    | Polling
    | Lines(rest: seq<Line>)                // between lines
    | Walking(rest: seq<Line>, walk: Walk)  // inside one line
    | Ticking
    | Waiting
    | Final                                 // draining on the way out
    | Done

  datatype History = History(walks: seq<Walk>, polled: seq<Line>, processed: seq<Line>, published: nat)

  datatype State = State(phase: Phase, stopping: bool, chain: seq<Parser>, inbox: Inbox, history: History)

  function Initial(chain: seq<Parser>): State {
    State(NotStarted, false, chain, EMPTY, History([], [], [], 0))
  }

  datatype Action =
    | Submit(cmd: Cmd)          // any thread, the driver included
    | RunOnCaller(cmd: Cmd)
    | StartDriver
    | RequestStop               // the join that follows only waits, whether or not it gives up
    | TestStop
    | CheckSwitch
    | TakeCommand
    | RunCommand
    | DrainedEmpty              // get_nowait found nothing
    | Poll(lines: seq<Line>)
    | BeginLine
    | Ask(consume: bool)        // the next parser of the live chain; raising counts as not consuming
    | PublishLine
    | LinesDone
    | TicksDone
    | Raise                     // an iteration step outside the parser calls raises
    | Wake
    | CloseGate                 // under the lock: shut it, if the inbox is empty
    | Crash                     // the loop is torn out of; the gate is still closed on the way

  predicate Alive(s: State) { s.phase != NotStarted && s.phase != Done }

  predicate DrainPoint(s: State) { s.phase == Draining || s.phase == Final }

  predicate Enabled(s: State, a: Action) {
    match a
    case Submit(_) => true
    case RunOnCaller(cmd) => cmd in s.inbox.pending
    // One life at a time, and no start while an inline command is still to run.
    case StartDriver => !Alive(s) && s.inbox.pending == multiset{}
    case RequestStop => true
    case TestStop => s.phase == Top
    case CheckSwitch => s.phase == Switching
    case TakeCommand => DrainPoint(s) && s.inbox.current.None? && s.inbox.queue != []
    case RunCommand => DrainPoint(s) && s.inbox.current.Some?
    case DrainedEmpty => s.phase == Draining && s.inbox.current.None? && s.inbox.queue == []
    case Poll(_) => s.phase == Polling
    case BeginLine => s.phase.Lines? && s.phase.rest != []
    case Ask(_) => s.phase.Walking? && !s.phase.walk.Consumed() && |s.phase.walk.asked| < |s.chain|
    case PublishLine => s.phase.Walking? && (s.phase.walk.Consumed() || |s.phase.walk.asked| >= |s.chain|)
    case LinesDone => s.phase.Lines? && s.phase.rest == []
    case TicksDone => s.phase == Ticking
    case Raise => s.phase == Switching || s.phase == Polling || s.phase == Ticking
    case Wake => s.phase == Waiting
    case CloseGate => s.phase == Final && s.inbox.current.None?
    case Crash => s.phase in {Switching, Polling, Ticking, Waiting} || s.phase.Lines?
  }

  /** What running a command does to the chain. */
  function Apply(chain: seq<Parser>, effect: Effect): seq<Parser> {
    match effect
    case AppendParser(p) => chain + [p]
    case RemoveParser(p) => Without(chain, p)
    case Other => chain
  }

  /** Remove the first occurrence, if any. */
  function Without(chain: seq<Parser>, p: Parser): seq<Parser> {
    if chain == [] then [] else if chain[0] == p then chain[1..] else [chain[0]] + Without(chain[1..], p)
  }

  function Next(s: State, a: Action): State
    requires Enabled(s, a)
  {
    match a
    case Submit(cmd) => s.(inbox := Put(s.inbox, cmd))
    case RunOnCaller(cmd) => s.(inbox := RanInline(s.inbox, cmd), chain := Apply(s.chain, cmd.effect))
    case StartDriver => s.(phase := Top, stopping := false, inbox := s.inbox.(accepting := true))
    case RequestStop =>
      // Never started: shut the gate and run here whatever is left over.
      if s.phase == NotStarted
      then s.(stopping := true,
              inbox := s.inbox.(accepting := false, queue := [],
                                pending := s.inbox.pending + multiset(s.inbox.queue)))
      else s.(stopping := true)
    case TestStop => s.(phase := if s.stopping then Final else Switching)
    case CheckSwitch => s.(phase := Draining)
    case TakeCommand => s.(inbox := Take(s.inbox))
    case RunCommand => s.(inbox := RanCurrent(s.inbox), chain := Apply(s.chain, s.inbox.current.value.effect))
    case DrainedEmpty => s.(phase := Polling)
    case Poll(lines) => s.(phase := Lines(lines), history := s.history.(polled := s.history.polled + lines))
    case BeginLine =>
      var line, rest := s.phase.rest[0], s.phase.rest[1..];
      s.(phase := if line then Walking(rest, Walk(s.chain, [], [])) else Lines(rest),
         history := s.history.(processed := s.history.processed + [line]))
    case Ask(consume) => s.(phase := Walking(s.phase.rest, AskNext(s.phase.walk, s.chain, consume)))
    case PublishLine =>
      s.(phase := Lines(s.phase.rest),
         history := s.history.(walks := s.history.walks + [s.phase.walk], published := s.history.published + 1))
    case LinesDone => s.(phase := Ticking)
    case TicksDone => s.(phase := Waiting)
    case Raise => s.(phase := Waiting)
    case Wake => s.(phase := Top)
    case CloseGate => if s.inbox.queue == [] then s.(phase := Done, inbox := s.inbox.(accepting := false)) else s
    case Crash => s.(phase := Final)
  }

  /** The list iterator indexes the chain as it is now, not a copy of it. */
  function AskNext(w: Walk, chain: seq<Parser>, consume: bool): Walk
    requires |w.asked| < |chain|
  {
    w.(asked := w.asked + [chain[|w.asked|]], verdicts := w.verdicts + [consume])
  }

  /** Any schedule at all: actions that cannot happen yet are skipped. */
  function Run(s: State, schedule: seq<Action>): State {
    if schedule == [] then s
    else
      var t := Run(s, schedule[..|schedule| - 1]);
      var a := schedule[|schedule| - 1];
      if Enabled(t, a) then Next(t, a) else t
  }

  // -- the invariant -----------------------------------------------------------------------

  /** The gate is open exactly while a driver thread lives. */
  ghost predicate GateInv(s: State) {
    && (s.inbox.accepting <==> Alive(s))
    && (!s.inbox.accepting ==> s.inbox.queue == [] && s.inbox.current.None?)
    && (s.inbox.accepting ==> s.inbox.pending == multiset{})
    && (s.inbox.current.Some? ==> DrainPoint(s))
  }

  /** The parsers asked are a prefix of the chain at line start. */
  ghost predicate GoodWalk(w: Walk) {
    && w.asked <= w.start && |w.verdicts| == |w.asked|
    && forall i | 0 <= i < |w.verdicts| - 1 :: !w.verdicts[i]
  }

  ghost predicate Finished(w: Walk) {
    GoodWalk(w) && (!w.Consumed() ==> w.asked == w.start)
  }

  function WellFormed(lines: seq<Line>): nat {
    if lines == [] then 0 else WellFormed(lines[..|lines| - 1]) + (if lines[|lines| - 1] then 1 else 0)
  }

  ghost predicate WalkInv(s: State) {
    && (s.phase.Walking? ==> s.phase.walk.start == s.chain && GoodWalk(s.phase.walk))
    && (forall w | w in s.history.walks :: Finished(w))
    && s.history.published == |s.history.walks|
    && WellFormed(s.history.processed) == s.history.published + (if s.phase.Walking? then 1 else 0)
  }

  ghost predicate Inv(s: State) { GateInv(s) && Accounted(s.inbox) && WalkInv(s) }

  lemma StepGate(s: State, a: Action)
    requires Enabled(s, a) && GateInv(s)
    ensures GateInv(Next(s, a))
  {
    hide Apply, AskNext;
    if a.Submit? || a.RunOnCaller? || a.RequestStop? || a.TakeCommand? || a.RunCommand? {
      InboxStepGate(s, a);
    } else if !a.StartDriver? && !a.CloseGate? {
      OtherStepGate(s, a);
    }
  }

  lemma InboxStepGate(s: State, a: Action)
    requires Enabled(s, a) && GateInv(s)
    requires a.Submit? || a.RunOnCaller? || a.RequestStop? || a.TakeCommand? || a.RunCommand?
    ensures GateInv(Next(s, a))
  {
    hide Apply;
  }

  /** The other steps leave the inbox alone and the driver alive. */
  lemma OtherStepGate(s: State, a: Action)
    requires Enabled(s, a) && GateInv(s) && !a.StartDriver? && !a.CloseGate?
    requires !a.Submit? && !a.RunOnCaller? && !a.RequestStop? && !a.TakeCommand? && !a.RunCommand?
    ensures GateInv(Next(s, a))
  {
    hide Apply, AskNext, GateInv;
    var t := Next(s, a);
    assert t.inbox == s.inbox && Alive(s) && Alive(t);
    assert s.inbox.current.None? by { NothingInHand(s, a); }
    KeptGate(s, t);
  }

  lemma NothingInHand(s: State, a: Action)
    requires Enabled(s, a) && GateInv(s) && !a.StartDriver? && !a.CloseGate?
    requires !a.Submit? && !a.RunOnCaller? && !a.RequestStop? && !a.TakeCommand? && !a.RunCommand?
    ensures s.inbox.current.None?
  {}

  lemma KeptGate(s: State, t: State)
    requires GateInv(s) && t.inbox == s.inbox && Alive(s) && Alive(t) && s.inbox.current.None?
    ensures GateInv(t)
  {}

  lemma StepAccounted(s: State, a: Action)
    requires Enabled(s, a) && GateInv(s) && Accounted(s.inbox)
    ensures Accounted(Next(s, a).inbox)
  {
    hide Apply, Put, RanInline, Take, RanCurrent, Accounted, WellFormed;
    match a
    case Submit(cmd) => PutAccounted(s.inbox, cmd);
    case RunOnCaller(cmd) => RanInlineAccounted(s.inbox, cmd);
    case TakeCommand => TakeAccounted(s.inbox);
    case RunCommand => RanCurrentAccounted(s.inbox);
    case RequestStop => if s.phase == NotStarted { LeftoversAccounted(s.inbox); }
    case StartDriver => GateAccounted(s.inbox, true);
    case CloseGate => GateAccounted(s.inbox, false);
    case _ => assert Next(s, a).inbox == s.inbox;
  }

  lemma GateAccounted(q: Inbox, accepting: bool)
    requires Accounted(q)
    ensures Accounted(q.(accepting := accepting))
  {}

  /** A driver that never started has nothing queued. */
  lemma LeftoversAccounted(q: Inbox)
    requires Accounted(q) && q.queue == []
    ensures Accounted(q.(accepting := false, queue := [], pending := q.pending + multiset(q.queue)))
  {
    assert q.pending + multiset(q.queue) == q.pending;
  }

  lemma StepWalk(s: State, a: Action)
    requires Enabled(s, a) && GateInv(s) && WalkInv(s)
    ensures WalkInv(Next(s, a))
  {
    hide Apply, Put, RanInline, Take, RanCurrent;
    if a.BeginLine? {
      assert (s.history.processed + [s.phase.rest[0]])[..|s.history.processed|] == s.history.processed;
    } else if !a.Ask? && !a.PublishLine? && !a.Poll? {
      hide WellFormed, Finished, GoodWalk;
      assert Next(s, a).history == s.history;
      assert Next(s, a).phase.Walking? ==>
        s.phase.Walking? && Next(s, a) == s.(inbox := Next(s, a).inbox, stopping := Next(s, a).stopping);
    }
  }

  lemma {:induction false} RunInv(chain: seq<Parser>, schedule: seq<Action>)
    ensures Inv(Run(Initial(chain), schedule))
  {
    if schedule != [] {
      var t, a := Run(Initial(chain), schedule[..|schedule| - 1]), schedule[|schedule| - 1];
      RunInv(chain, schedule[..|schedule| - 1]);
      if Enabled(t, a) {
        StepGate(t, a);
        StepAccounted(t, a);
        StepWalk(t, a);
      }
    }
  }

  // -- what every schedule guarantees ----------------------------------------------------

  /** Each submission has run once, or waits in one place: in the queue of a live driver,
      in that driver's hand, or with its own caller while no driver lives. Commands the
      driver took ran in the order they were accepted. */
  lemma EveryCommandAccountedFor(chain: seq<Parser>, schedule: seq<Action>, cmd: Cmd)
    ensures var s := Run(Initial(chain), schedule);
      var q := s.inbox;
      && multiset(q.submitted)[cmd] == multiset(q.ranOnDriver)[cmd] + multiset(q.ranOnCallers)[cmd]
           + multiset(InHand(q))[cmd] + multiset(q.queue)[cmd] + q.pending[cmd]
      && q.accepted == q.ranOnDriver + (InHand(q) + q.queue)
      && (InHand(q) + q.queue != [] ==> Alive(s))
      && (cmd in q.pending ==> !Alive(s))
  {
    RunInv(chain, schedule);
  }

  /** Once the gate is shut the inbox is empty, and all that was ever accepted has run in order. */
  lemma ShutGateMeansDrained(chain: seq<Parser>, schedule: seq<Action>)
    ensures var q := Run(Initial(chain), schedule).inbox;
      !q.accepting ==> q.queue == [] && q.current.None? && q.ranOnDriver == q.accepted
  {
    RunInv(chain, schedule);
  }

  /** No command is run by a caller while a driver thread can still run anything. */
  lemma CallersRunAlone(chain: seq<Parser>, schedule: seq<Action>, cmd: Cmd, a: Action)
    ensures var s := Run(Initial(chain), schedule);
      Enabled(s, RunOnCaller(cmd)) && Enabled(s, a) ==> a.Submit? || a.RunOnCaller? || a.RequestStop?
  {
    RunInv(chain, schedule);
    hide Run, Next, Accounted, WalkInv;
  }

  /** Every line asked exactly the chain as it stood when the line began, in order, up to
      the first parser that consumed it, whoever submitted chain changes meanwhile; and
      every well-formed line has published one event. */
  lemma ChainIsStableWithinALine(chain: seq<Parser>, schedule: seq<Action>)
    ensures var s := Run(Initial(chain), schedule);
      && (s.phase.Walking? ==> s.chain == s.phase.walk.start && s.phase.walk.asked <= s.chain)
      && (forall w | w in s.history.walks :: Finished(w))
      && WellFormed(s.history.processed) == s.history.published + (if s.phase.Walking? then 1 else 0)
  {
    RunInv(chain, schedule);
  }

  /** Inside a line no step of any thread touches the chain, and only asking the next
      parser or publishing moves the walk on. */
  lemma NothingMutatesTheChainMidLine(chain: seq<Parser>, schedule: seq<Action>, a: Action)
    requires Run(Initial(chain), schedule).phase.Walking? && Enabled(Run(Initial(chain), schedule), a)
    ensures var s := Run(Initial(chain), schedule);
      && Next(s, a).chain == s.chain
      && (Next(s, a).phase == s.phase || a.Ask? || a.PublishLine?)
  {
    RunInv(chain, schedule);
  }

  // -- shutting down finishes --------------------------------------------------------------

  /** The driver's own steps from the final drain on, with nothing more submitted. */
  function Unwind(s: State): seq<Action> {
    (if s.inbox.current.Some? then [RunCommand] else []) + DrainAll(|s.inbox.queue|) + [CloseGate]
  }

  function DrainAll(n: nat): seq<Action> {
    if n == 0 then [] else DrainAll(n - 1) + [TakeCommand, RunCommand]
  }

  /** In the final drain with nothing in hand. */
  ghost predicate AtDrain(s: State, queue: seq<Cmd>, ran: seq<Cmd>, accepted: seq<Cmd>) {
    && s.phase == Final && s.inbox.current.None?
    && s.inbox.queue == queue && s.inbox.ranOnDriver == ran && s.inbox.accepted == accepted
  }

  lemma {:induction false} RunAppend(s: State, xs: seq<Action>, ys: seq<Action>)
    ensures Run(s, xs + ys) == Run(Run(s, xs), ys)
  {
    if ys == [] {
      assert xs + ys == xs;
    } else {
      assert (xs + ys)[..|xs + ys| - 1] == xs + ys[..|ys| - 1];
      RunAppend(s, xs, ys[..|ys| - 1]);
    }
  }

  lemma RunOne(s: State, a: Action)
    requires Enabled(s, a)
    ensures Run(s, [a]) == Next(s, a)
  {
    assert [a][..0] == [];
    assert Run(s, []) == s;
  }

  lemma {:induction false} DrainAllRuns(s: State, n: nat)
    requires s.phase == Final && s.inbox.current.None? && n <= |s.inbox.queue|
    ensures AtDrain(Run(s, DrainAll(n)), s.inbox.queue[n..], s.inbox.ranOnDriver + s.inbox.queue[..n], s.inbox.accepted)
  {
    if n > 0 {
      DrainAllRuns(s, n - 1);
      var t := Run(s, DrainAll(n - 1));
      RunAppend(s, DrainAll(n - 1), [TakeCommand, RunCommand]);
      hide Run, Next;
      TakesAndRuns(t);
      QueueSplits(s.inbox.queue, n);
    }
  }

  lemma QueueSplits(queue: seq<Cmd>, n: nat)
    requires 0 < n <= |queue|
    ensures queue[n - 1..][0] == queue[n - 1] && queue[n - 1..][1..] == queue[n..]
    ensures forall ran: seq<Cmd> :: ran + queue[..n - 1] + [queue[n - 1]] == ran + queue[..n]
  {
    assert queue[..n] == queue[..n - 1] + [queue[n - 1]];
  }

  /** One command off the queue and run. */
  lemma TakesAndRuns(t: State)
    requires t.phase == Final && t.inbox.current.None? && t.inbox.queue != []
    ensures AtDrain(Run(t, [TakeCommand, RunCommand]), t.inbox.queue[1..],
                    t.inbox.ranOnDriver + [t.inbox.queue[0]], t.inbox.accepted)
  {
    hide Apply;
    RunAppend(t, [TakeCommand], [RunCommand]);
    assert [TakeCommand] + [RunCommand] == [TakeCommand, RunCommand];
    RunOne(t, TakeCommand);
    RunOne(Next(t, TakeCommand), RunCommand);
    hide Run;
  }

  /** Left to itself in its final drain, the driver runs everything accepted, then shuts the gate. */
  lemma UnwindFinishes(chain: seq<Parser>, schedule: seq<Action>)
    requires Run(Initial(chain), schedule).phase == Final
    ensures var s := Run(Initial(chain), schedule);
      var t := Run(Initial(chain), schedule + Unwind(s));
      t.phase == Done && t.inbox.queue == [] && t.inbox.ranOnDriver == t.inbox.accepted == s.inbox.accepted
  {
    var s := Run(Initial(chain), schedule);
    RunInv(chain, schedule);
    RunAppend(Initial(chain), schedule, Unwind(s));
    UnwindFrom(s);
  }

  lemma UnwindFrom(s: State)
    requires s.phase == Final && Accounted(s.inbox)
    ensures var t := Run(s, Unwind(s));
      t.phase == Done && t.inbox.queue == [] && t.inbox.ranOnDriver == t.inbox.accepted == s.inbox.accepted
  {
    var first, n := if s.inbox.current.Some? then [RunCommand] else [], |s.inbox.queue|;
    if s.inbox.current.Some? { RunOne(s, RunCommand); }
    var t := Run(s, first);
    hide Apply;
    assert AtDrain(t, s.inbox.queue, s.inbox.ranOnDriver + InHand(s.inbox), s.inbox.accepted);
    DrainAllRuns(t, n);
    RunAppend(s, first, DrainAll(n));
    RunAppend(s, first + DrainAll(n), [CloseGate]);
    RunOne(Run(t, DrainAll(n)), CloseGate);
    hide Run;
  }
}
