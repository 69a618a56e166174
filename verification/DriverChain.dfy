/** What commands do to the parser chain, what a stop does to the loop, and what becomes of the
    lines it polled. */
module DriverChain {
  import opened Options
  import opened Driver

  // -- the chain, step by step ---------------------------------------------------------------

  /** The command a step runs, on the driver or on its caller. */
  function Ran(s: State, a: Action): Option<Cmd>
    requires Enabled(s, a)
  {
    match a
    case RunOnCaller(cmd) => Some(cmd)
    case RunCommand => s.inbox.current
    case _ => None
  }

  /** `after` is `before` with the first `p` gone, or `before` itself when it has none. */
  ghost predicate FirstGone(before: seq<Parser>, after: seq<Parser>, p: Parser) {
    if p !in before then after == before
    else exists k :: GoneAt(before, after, p, k)
  }

  ghost predicate GoneAt(before: seq<Parser>, after: seq<Parser>, p: Parser, k: int) {
    0 <= k < |before| && before[k] == p && p !in before[..k] && after == before[..k] + before[k + 1..]
  }

  lemma {:induction false} WithoutIs(chain: seq<Parser>, p: Parser)
    ensures FirstGone(chain, Without(chain, p), p)
  {
    if chain != [] {
      WithoutIs(chain[1..], p);
      assert chain == [chain[0]] + chain[1..];
      if chain[0] == p { assert GoneAt(chain, Without(chain, p), p, 0); }
      else { GoneBehind(chain[0], chain[1..], Without(chain[1..], p), p); }
    }
  }

  lemma GoneBehind(first: Parser, before: seq<Parser>, after: seq<Parser>, p: Parser)
    requires FirstGone(before, after, p) && first != p
    ensures FirstGone([first] + before, [first] + after, p)
  {
    var longer := [first] + before;
    assert p in longer <==> p in before;
    if p in before {
      var k :| GoneAt(before, after, p, k);
      GoneFurther(first, before, after, p, k);
    }
  }

  lemma GoneFurther(first: Parser, before: seq<Parser>, after: seq<Parser>, p: Parser, k: int)
    requires GoneAt(before, after, p, k) && first != p
    ensures GoneAt([first] + before, [first] + after, p, k + 1)
  {
    var longer := [first] + before;
    assert longer[..k + 1] == [first] + before[..k] && longer[k + 2..] == before[k + 1..];
    assert longer[k + 1] == p;
  }

  /** A step that runs an append puts that parser after all the others, one that runs a remove
      takes out the first of it, and no other step changes the chain. */
  lemma ChainStep(s: State, a: Action)
    requires Enabled(s, a)
    ensures var after := Next(s, a).chain;
      match Ran(s, a)
      case None => after == s.chain
      case Some(cmd) => match cmd.effect
        case AppendParser(p) => |after| == |s.chain| + 1 && s.chain <= after && after[|s.chain|] == p
        case RemoveParser(p) => FirstGone(s.chain, after, p)
        case Other => after == s.chain
  {
    hide Put, RanInline, Take, RanCurrent, AskNext, FirstGone, Without;
    if Ran(s, a).Some? && Ran(s, a).value.effect.RemoveParser? {
      WithoutIs(s.chain, Ran(s, a).value.effect.parser);
    }
  }

  // -- the chain over a run ------------------------------------------------------------------

  /** No step of the run from `s` runs a command that `stops` speaks of. */
  ghost predicate Runs(s: State, later: seq<Action>, allowed: Effect -> bool) {
    forall i | 0 <= i < |later| :: OnlyRuns(Run(s, later[..i]), later[i], allowed)
  }

  ghost predicate OnlyRuns(s: State, a: Action, allowed: Effect -> bool) {
    Enabled(s, a) && Ran(s, a).Some? ==> allowed(Ran(s, a).value.effect)
  }

  lemma RunsBefore(s: State, later: seq<Action>, allowed: Effect -> bool)
    requires Runs(s, later, allowed) && later != []
    ensures Runs(s, later[..|later| - 1], allowed)
    ensures OnlyRuns(Run(s, later[..|later| - 1]), later[|later| - 1], allowed)
  {
    hide OnlyRuns, Run;
    var init := later[..|later| - 1];
    forall i | 0 <= i < |init| ensures OnlyRuns(Run(s, init[..i]), init[i], allowed) {
      assert init[..i] == later[..i] && init[i] == later[i];
    }
  }

  ghost predicate KeepsParsers(effect: Effect) { !effect.RemoveParser? }

  /** The walks recorded from `n` on, and the one in progress, start with these parsers. */
  ghost predicate StartWith(s: State, n: nat, parsers: seq<Parser>) {
    && n <= |s.history.walks| && parsers <= s.chain
    && (forall k | n <= k < |s.history.walks| :: parsers <= s.history.walks[k].start)
    && (s.phase.Walking? ==> parsers <= s.phase.walk.start)
  }

  lemma StartsOn(s: State, a: Action, n: nat, parsers: seq<Parser>)
    requires Enabled(s, a) && StartWith(s, n, parsers) && OnlyRuns(s, a, KeepsParsers)
    ensures StartWith(Next(s, a), n, parsers)
  {
    ChainStep(s, a);
    hide Put, RanInline, Take, RanCurrent, Apply;
  }

  lemma {:induction false} StartOver(s: State, later: seq<Action>, n: nat, parsers: seq<Parser>)
    requires StartWith(s, n, parsers) && Runs(s, later, KeepsParsers)
    ensures StartWith(Run(s, later), n, parsers)
  {
    hide StartWith, OnlyRuns, Next, Enabled, Runs;
    if later != [] {
      RunsBefore(s, later, KeepsParsers);
      StartOver(s, later[..|later| - 1], n, parsers);
      var t, a := Run(s, later[..|later| - 1]), later[|later| - 1];
      if Enabled(t, a) { StartsOn(t, a, n, parsers); }
    }
  }

  /** In a walk that is over, a parser is asked exactly when every one before it was asked and
      did not consume the line. */
  ghost predicate AskedAfterTheRest(w: Walk, j: nat) {
    |w.asked| > j <==> |w.verdicts| >= j && forall i | 0 <= i < j :: !w.verdicts[i]
  }

  lemma FinishedAsks(w: Walk, j: nat)
    requires Finished(w) && j < |w.start|
    ensures AskedAfterTheRest(w, j) && w.asked == w.start[..|w.asked|]
  {}

  lemma WalksAreFinished(chain: seq<Parser>, schedule: seq<Action>, k: nat)
    requires k < |Run(Initial(chain), schedule).history.walks|
    ensures Finished(Run(Initial(chain), schedule).history.walks[k])
  {
    hide Finished, Run;
    RunInv(chain, schedule);
  }

  /** Whenever a command that appends a parser has run, every later line asks the parsers that
      were there before first and this one next, and asks it exactly when none of those
      consumed the line; whatever else is appended, until something is removed. */
  lemma AppendedSeesOnlyTheRest(chain: seq<Parser>, schedule: seq<Action>, a: Action, later: seq<Action>)
    requires var s := Run(Initial(chain), schedule);
      && Enabled(s, a) && Ran(s, a).Some? && Ran(s, a).value.effect.AppendParser?
      && Runs(Next(s, a), later, KeepsParsers)
    ensures var s, u := Run(Initial(chain), schedule), Run(Initial(chain), schedule + [a] + later);
      var p, n := Ran(s, a).value.effect.parser, |s.chain|;
      && |s.history.walks| <= |u.history.walks|
      && forall k | |s.history.walks| <= k < |u.history.walks| ::
           var w := u.history.walks[k];
           |w.start| > n && w.start[..n] == s.chain && w.start[n] == p && AskedAfterTheRest(w, n)
  {
    var s := Run(Initial(chain), schedule);
    var t, n, m := Next(s, a), |s.chain|, |s.history.walks|;
    RunInv(chain, schedule);
    ChainStep(s, a);
    assert StartWith(t, m, t.chain) by { NotMidLine(s, a); }
    RunAppend(Initial(chain), schedule, [a]);
    RunAppend(Initial(chain), schedule + [a], later);
    assert Run(s, [a]) == t by { RunOne(s, a); }
    hide Run, Next, Enabled, Runs, Finished, AskedAfterTheRest, Inv;
    StartOver(t, later, m, t.chain);
    var u := Run(t, later);
    forall k | m <= k < |u.history.walks|
      ensures var w := u.history.walks[k];
        |w.start| > n && w.start[..n] == s.chain && w.start[n] == t.chain[n] && AskedAfterTheRest(w, n)
    {
      var w := u.history.walks[k];
      WalksAreFinished(chain, schedule + [a] + later, k);
      assert t.chain <= w.start;
      FinishedAsks(w, n);
      assert w.start[..n] == t.chain[..n];
    }
  }

  lemma NotMidLine(s: State, a: Action)
    requires Inv(s) && Enabled(s, a) && Ran(s, a).Some?
    ensures !s.phase.Walking? && !Next(s, a).phase.Walking?
    ensures Next(s, a).history == s.history
  {}

  // -- a removed parser is gone ----------------------------------------------------------------

  ghost function NotAppending(p: Parser): Effect -> bool { effect => effect != AppendParser(p) }

  ghost predicate NeverStart(s: State, n: nat, p: Parser) {
    && n <= |s.history.walks| && p !in s.chain
    && (forall k | n <= k < |s.history.walks| :: p !in s.history.walks[k].start)
    && (s.phase.Walking? ==> p !in s.phase.walk.start)
  }

  lemma NeverStartsOn(s: State, a: Action, n: nat, p: Parser)
    requires Enabled(s, a) && NeverStart(s, n, p) && OnlyRuns(s, a, NotAppending(p))
    ensures NeverStart(Next(s, a), n, p)
  {
    ChainStep(s, a);
    hide Put, RanInline, Take, RanCurrent, Apply;
  }

  lemma {:induction false} NeverStartOver(s: State, later: seq<Action>, n: nat, p: Parser)
    requires NeverStart(s, n, p) && Runs(s, later, NotAppending(p))
    ensures NeverStart(Run(s, later), n, p)
  {
    hide NeverStart, OnlyRuns, Next, Enabled, Runs;
    if later != [] {
      RunsBefore(s, later, NotAppending(p));
      NeverStartOver(s, later[..|later| - 1], n, p);
      var t, a := Run(s, later[..|later| - 1]), later[|later| - 1];
      if Enabled(t, a) { NeverStartsOn(t, a, n, p); }
    }
  }

  lemma OnceGone(before: seq<Parser>, after: seq<Parser>, p: Parser)
    requires FirstGone(before, after, p) && multiset(before)[p] <= 1
    ensures p !in after
  {
    if p in before {
      var k :| GoneAt(before, after, p, k);
      assert before == before[..k] + [p] + before[k + 1..];
    }
  }

  /** Once a command has removed a parser that was on the chain once, no later line asks it
      until it is appended again. */
  lemma RemovedIsNotAsked(chain: seq<Parser>, schedule: seq<Action>, a: Action, later: seq<Action>)
    requires var s := Run(Initial(chain), schedule);
      && Enabled(s, a) && Ran(s, a).Some? && Ran(s, a).value.effect.RemoveParser?
      && multiset(s.chain)[Ran(s, a).value.effect.parser] <= 1
      && Runs(Next(s, a), later, NotAppending(Ran(s, a).value.effect.parser))
    ensures var s, u := Run(Initial(chain), schedule), Run(Initial(chain), schedule + [a] + later);
      var p := Ran(s, a).value.effect.parser;
      && |s.history.walks| <= |u.history.walks|
      && forall k | |s.history.walks| <= k < |u.history.walks| :: p !in u.history.walks[k].asked
  {
    var s := Run(Initial(chain), schedule);
    var t, p, m := Next(s, a), Ran(s, a).value.effect.parser, |s.history.walks|;
    RunInv(chain, schedule);
    ChainStep(s, a);
    OnceGone(s.chain, t.chain, p);
    assert NeverStart(t, m, p) by { NotMidLine(s, a); }
    RunAppend(Initial(chain), schedule, [a]);
    RunAppend(Initial(chain), schedule + [a], later);
    assert Run(s, [a]) == t by { RunOne(s, a); }
    hide Run, Next, Enabled, Runs, Finished, Inv;
    NeverStartOver(t, later, m, p);
    var u := Run(t, later);
    forall k | m <= k < |u.history.walks| ensures p !in u.history.walks[k].asked {
      var w := u.history.walks[k];
      WalksAreFinished(chain, schedule + [a] + later, k);
      assert w.asked <= w.start by { FinishedIsPrefix(w); }
    }
  }

  lemma FinishedIsPrefix(w: Walk)
    requires Finished(w)
    ensures w.asked <= w.start
  {}

  // -- polled lines ------------------------------------------------------------------------------

  function Left(phase: Phase): seq<Line> {
    match phase case Lines(rest) => rest case Walking(rest, _) => rest case _ => []
  }

  /** Unless the loop is torn out of, every line polled is processed, once and in order, before
      the next poll. */
  lemma {:induction false} PolledLinesAreProcessed(chain: seq<Parser>, schedule: seq<Action>)
    requires Crash !in schedule
    ensures var s := Run(Initial(chain), schedule);
      s.history.polled == s.history.processed + Left(s.phase)
  {
    if schedule != [] {
      var init, a := schedule[..|schedule| - 1], schedule[|schedule| - 1];
      PolledLinesAreProcessed(chain, init);
      assert a in schedule;
      var s := Run(Initial(chain), init);
      if Enabled(s, a) { ProcessesNext(s, a); }
    }
  }

  lemma ProcessesNext(s: State, a: Action)
    requires Enabled(s, a) && a != Crash && s.history.polled == s.history.processed + Left(s.phase)
    ensures Next(s, a).history.polled == Next(s, a).history.processed + Left(Next(s, a).phase)
  {
    hide Next;
    ProcessedNext(s, a);
    Regroup(s.history.processed, Left(s.phase));
  }

  lemma Regroup(done: seq<Line>, left: seq<Line>)
    ensures left != [] ==> done + [left[0]] + left[1..] == done + left
    ensures done + [] == done
  {}

  /** What a step does to the lines polled, processed and left. */
  lemma ProcessedNext(s: State, a: Action)
    requires Enabled(s, a) && a != Crash
    ensures var was, after := s.history, Next(s, a).history;
      var left, now := Left(s.phase), Left(Next(s, a).phase);
      && (a.Poll? ==>
            left == [] && now == a.lines && after.polled == was.polled + a.lines && after.processed == was.processed)
      && (a.BeginLine? ==>
            left != [] && now == left[1..] && after.polled == was.polled &&
            after.processed == was.processed + [left[0]])
      && (!a.Poll? && !a.BeginLine? ==> now == left && after.polled == was.polled && after.processed == was.processed)
  {
    hide Put, RanInline, Take, RanCurrent, Apply, AskNext;
  }

  // -- stopping ------------------------------------------------------------------------------------

  /** Stopping, with no iteration under way. */
  ghost predicate Leaving(s: State) {
    s.stopping && (s.phase == Top || s.phase == Final || s.phase == Done)
  }

  /** A stop is honoured at the next test: from then on, until the driver is started again, no
      line is polled, no line is processed, and the loop is only ever at its exit. */
  lemma {:induction false} StopIsHonoured(s: State, later: seq<Action>)
    requires Leaving(s) && StartDriver !in later
    ensures Leaving(Run(s, later)) && Run(s, later).history == s.history
  {
    if later != [] {
      var init, a := later[..|later| - 1], later[|later| - 1];
      StopIsHonoured(s, init);
      assert a in later;
      hide Put, RanInline, Take, RanCurrent, Apply, AskNext;
    }
  }

  /** How far an iteration still has to go before it tests for a stop, its lines apart. */
  function Ahead(phase: Phase): nat {
    match phase
    case Switching => 6
    case Draining => 5
    case Polling => 4
    case Lines(_) => 3
    case Walking(_, _) => 3
    case Ticking => 2
    case Waiting => 1
    case _ => 0
  }

  /** How many times the run polls. */
  function Polls(s: State, later: seq<Action>): nat {
    if later == [] then 0
    else
      var init, a := later[..|later| - 1], later[|later| - 1];
      Polls(s, init) + if a.Poll? && Enabled(Run(s, init), a) then 1 else 0
  }

  lemma {:induction false} PollsAhead(s: State, later: seq<Action>)
    requires s.stopping && s.phase != NotStarted && StartDriver !in later
    ensures var u := Run(s, later);
      && u.stopping && u.phase != NotStarted && Ahead(u.phase) <= Ahead(s.phase)
      && Polls(s, later) + (if Ahead(u.phase) >= 4 then 1 else 0) <= 1
  {
    if later != [] {
      var init, a := later[..|later| - 1], later[|later| - 1];
      PollsAhead(s, init);
      assert a in later;
      hide Next, Enabled, Ahead;
      if Enabled(Run(s, init), a) { PollsOn(Run(s, init), a); }
    }
  }

  /** An iteration under way when a stop is asked for finishes, but polls no second time. */
  lemma StoppingPollsAtMostOnce(chain: seq<Parser>, schedule: seq<Action>, later: seq<Action>)
    requires Alive(Run(Initial(chain), schedule)) && StartDriver !in later
    ensures Polls(Run(Initial(chain), schedule + [RequestStop]), later) <= 1
  {
    RunAppend(Initial(chain), schedule, [RequestStop]);
    RunOne(Run(Initial(chain), schedule), RequestStop);
    assert Run(Initial(chain), schedule + [RequestStop]).stopping;
    hide Run, Polls;
    PollsAhead(Run(Initial(chain), schedule + [RequestStop]), later);
  }

  lemma PollsOn(s: State, a: Action)
    requires Enabled(s, a) && s.stopping && s.phase != NotStarted && a != StartDriver
    ensures var u := Next(s, a);
      && u.stopping && u.phase != NotStarted && Ahead(u.phase) <= Ahead(s.phase)
      && (a.Poll? ==> Ahead(s.phase) >= 4 && Ahead(u.phase) < 4)
  {
    hide Put, RanInline, Take, RanCurrent, Apply, AskNext;
  }

  /** A driver that is started is not stopping, whatever was asked before, takes commands, and with
      none waiting goes on to poll. */
  lemma StartedDriversPoll(s: State, lines: seq<Line>)
    requires Enabled(s, StartDriver) && s.inbox.queue == [] && s.inbox.current.None?
    ensures var started := Next(s, StartDriver);
      && !started.stopping && started.inbox.accepting
      && Run(started, [TestStop, CheckSwitch, DrainedEmpty, Poll(lines)]).phase == Lines(lines)
  {
    var all := [TestStop, CheckSwitch, DrainedEmpty, Poll(lines)];
    var started := Next(s, StartDriver);
    assert all[..3][..2] == all[..2] && all[..2][..1] == all[..1] && all[..1][..0] == [];
    assert Run(started, []) == started;
    assert Run(started, all[..1]) == started.(phase := Switching);
    assert Run(started, all[..2]) == started.(phase := Draining);
    assert Run(started, all[..3]) == started.(phase := Polling);
  }

  // -- the loop goes on ------------------------------------------------------------------------------

  /** Inside a line there is always exactly one thing to do: ask the next parser, while there is one
      and none has consumed the line, or publish. */
  lemma LinesGoOn(s: State, consume: bool)
    requires s.phase.Walking?
    ensures Enabled(s, Ask(consume)) <==> !Enabled(s, PublishLine)
    ensures var w := s.phase.walk;
      Enabled(s, PublishLine) <==> |w.asked| >= |s.chain| || (w.verdicts != [] && w.verdicts[|w.verdicts| - 1])
  {}

  /** A driver that lives always has a step to take, whatever it has in hand. */
  lemma DriversAreNeverStuck(chain: seq<Parser>, schedule: seq<Action>) returns (a: Action)
    requires Alive(Run(Initial(chain), schedule))
    ensures Enabled(Run(Initial(chain), schedule), a)
    ensures !a.Submit? && !a.RunOnCaller? && !a.StartDriver? && !a.RequestStop? && !a.Raise? && !a.Crash?
  {
    var s := Run(Initial(chain), schedule);
    RunInv(chain, schedule);
    match s.phase
    case Top => a := TestStop;
    case Switching => a := CheckSwitch;
    case Draining =>
      a := if s.inbox.current.Some? then RunCommand else if s.inbox.queue != [] then TakeCommand else DrainedEmpty;
    case Polling => a := Poll([]);
    case Lines(rest) => a := if rest == [] then LinesDone else BeginLine;
    case Walking(_, _) => LinesGoOn(s, false); a := if Enabled(s, PublishLine) then PublishLine else Ask(false);
    case Ticking => a := TicksDone;
    case Waiting => a := Wake;
    case Final => a := if s.inbox.current.Some? then RunCommand else CloseGate;
  }

  /** The one way into a poll is through an inbox found empty: everything accepted by then has run. */
  lemma PollsAreDrained(chain: seq<Parser>, schedule: seq<Action>, a: Action)
    requires Enabled(Run(Initial(chain), schedule), a)
    ensures var s := Run(Initial(chain), schedule);
      s.phase != Polling && Next(s, a).phase == Polling ==>
        s.inbox.queue == [] && s.inbox.current.None? && Next(s, a).inbox.ranOnDriver == s.inbox.accepted
  {
    RunInv(chain, schedule);
    hide Run, Put, RanInline, Take, RanCurrent, Apply, AskNext;
  }
}
