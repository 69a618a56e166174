/** The debounced saver as interleaved steps: requests, timers firing, flushes, cancels and
    the saves themselves, each lock-held section one step. */
module Saver {
  import opened Options

  type Timer = nat

  /** A timer is armed until it fires or is cancelled, and has fired until its callback gets the
      lock. `due` counts saves decided on and not yet made, `settled` how many requests some
      decision, to save or to discard, has covered, and `seen` how many requests had been made
      when the latest save ran: a save writes the settings as they are when it runs. */
  datatype State = State(
    pending: bool,
    timer: Option<Timer>,
    armed: set<Timer>,
    fired: set<Timer>,
    nextTimer: Timer,
    requests: nat,
    settled: nat,
    due: nat,
    saves: nat,
    seen: nat)

  const START := State(false, None, {}, {}, 0, 0, 0, 0, 0, 0)

  datatype Action = Request | Fire(timer: Timer) | OnTimer(timer: Timer) | Flush | Cancel | Save

  predicate Enabled(s: State, a: Action) {
    match a
    case Fire(timer) => timer in s.armed
    case OnTimer(timer) => timer in s.fired
    case Save => s.due > 0
    case _ => true
  }

  /** Cancelling stops a timer that has not fired, and nothing else. */
  function Disarm(s: State): State {
    if s.timer.Some? then s.(timer := None, armed := s.armed - {s.timer.value}) else s
  }

  function Decide(s: State): State {
    s.(pending := false, due := s.due + 1, settled := s.requests)
  }

  function Next(s: State, a: Action): State
    requires Enabled(s, a)
  {
    match a
    case Request =>
      var d := Disarm(s);
      d.(pending := true, requests := s.requests + 1, timer := Some(s.nextTimer),
         armed := d.armed + {s.nextTimer}, nextTimer := s.nextTimer + 1)
    case Fire(timer) => s.(armed := s.armed - {timer}, fired := s.fired + {timer})
    case OnTimer(timer) =>
      var f := s.(fired := s.fired - {timer});
      if !s.pending then f else Decide(f).(timer := None)
    case Flush => if s.pending then Decide(Disarm(s)) else Disarm(s)
    case Cancel => if s.pending then Disarm(s).(pending := false, settled := s.requests) else Disarm(s)
    case Save => s.(due := s.due - 1, saves := s.saves + 1, seen := s.requests)
  }

  function Run(s: State, schedule: seq<Action>): State {
    if schedule == [] then s
    else
      var t := Run(s, schedule[..|schedule| - 1]);
      var a := schedule[|schedule| - 1];
      if Enabled(t, a) then Next(t, a) else t
  }

  // -- what every schedule keeps -----------------------------------------------------------------

  /** A pending save has a timer that is armed, or has fired and waits for the lock; every
      request is pending or settled; and saves never outnumber requests. */
  ghost predicate Inv(s: State) {
    && (s.pending ==> s.timer.Some? && s.timer.value in s.armed + s.fired)
    && (s.pending <==> s.settled < s.requests) && s.settled <= s.requests && s.seen <= s.requests
    && s.saves + s.due + (if s.pending then 1 else 0) <= s.requests
    && (forall t | t in s.armed :: t < s.nextTimer) && (forall t | t in s.fired :: t < s.nextTimer)
    && (s.timer.Some? ==> s.timer.value < s.nextTimer)
  }

  lemma StepInv(s: State, a: Action)
    requires Inv(s) && Enabled(s, a)
    ensures Inv(Next(s, a))
  {}

  lemma {:induction false} RunInv(schedule: seq<Action>)
    ensures Inv(Run(START, schedule))
  {
    if schedule != [] {
      RunInv(schedule[..|schedule| - 1]);
      var t, a := Run(START, schedule[..|schedule| - 1]), schedule[|schedule| - 1];
      if Enabled(t, a) { StepInv(t, a); }
    }
  }

  /** In every interleaving, a pending save has a timer on its way to it, nothing else is
      unsettled, and saves made or decided never outnumber requests. */
  lemma PendingHasATimer(schedule: seq<Action>)
    ensures var s := Run(START, schedule);
      && (s.pending ==> s.timer.Some? && s.timer.value in s.armed + s.fired)
      && (!s.pending ==> s.settled == s.requests)
      && s.saves + s.due <= s.requests
  {
    RunInv(schedule);
  }

  lemma RunAppend(s: State, schedule: seq<Action>, a: Action)
    ensures Run(s, schedule + [a]) ==
      if Enabled(Run(s, schedule), a) then Next(Run(s, schedule), a) else Run(s, schedule)
  {
    assert (schedule + [a])[..|schedule|] == schedule;
  }

  /** The steps a pending save needs, all of the timer's own making. */
  function Ripen(s: State): seq<Action> {
    if s.timer.None? then []
    else
      (if s.timer.value in s.armed then [Fire(s.timer.value)] else []) + [OnTimer(s.timer.value)] + [Save]
  }

  /** Left to its timer, a pending save is made, and sees every request. */
  lemma PendingIsSaved(schedule: seq<Action>)
    requires Run(START, schedule).pending
    ensures var s := Run(START, schedule);
      var t := Run(START, schedule + Ripen(s));
      !t.pending && t.saves == s.saves + 1 && t.seen == t.requests == s.requests
  {
    var s := Run(START, schedule);
    RunInv(schedule);
    var timer := s.timer.value;
    var first := if timer in s.armed then [Fire(timer)] else [];
    if timer in s.armed { RunAppend(START, schedule, Fire(timer)); }
    assert schedule + [] == schedule;
    RunAppend(START, schedule + first, OnTimer(timer));
    RunAppend(START, schedule + first + [OnTimer(timer)], Save);
    assert schedule + Ripen(s) == schedule + first + [OnTimer(timer)] + [Save];
  }

  // -- every request is saved for ------------------------------------------------------------------

  /** After `before`, no cancel is taken while a save is pending. */
  ghost predicate Spared(before: seq<Action>, after: seq<Action>) {
    forall i | 0 <= i < |after| && after[i] == Cancel :: !Run(START, before + after[..i]).pending
  }

  /** A request is on its way to a save, or the latest save has seen it. */
  ghost predicate Served(s: State, request: nat) {
    s.pending || s.due > 0 || s.seen >= request
  }

  /** Whatever went before a request, cancels included, as long as no cancel after it finds a
      save pending: once nothing is pending and no decided save is still to be made, the latest
      save ran after the request. */
  lemma {:induction false} SparedRequestsAreSaved(before: seq<Action>, after: seq<Action>)
    requires before != [] && before[|before| - 1] == Request && Spared(before, after)
    ensures var s := Run(START, before + after);
      s.requests >= Run(START, before).requests > 0 && Served(s, Run(START, before).requests)
  {
    if after == [] {
      assert before + after == before;
    } else {
      var init, a := after[..|after| - 1], after[|after| - 1];
      forall i | 0 <= i < |init| && init[i] == Cancel ensures !Run(START, before + init[..i]).pending {
        assert after[i] == Cancel && after[..i] == init[..i];
      }
      SparedRequestsAreSaved(before, init);
      assert before + after == before + init + [a];
      RunAppend(START, before + init, a);
      assert a == Cancel ==> !Run(START, before + after[..|after| - 1]).pending;
      hide Run;
    }
  }

  /** Every request that no cancel follows is followed by a save that runs after it, or one is
      pending or decided. */
  lemma UncancelledRequestsAreSaved(before: seq<Action>, after: seq<Action>)
    requires before != [] && before[|before| - 1] == Request && Cancel !in after
    ensures var s := Run(START, before + after);
      !s.pending && s.due == 0 ==> s.saves > 0 && s.seen >= Run(START, before).requests
  {
    forall i | 0 <= i < |after| ensures after[i] != Cancel { assert after[i] in after; }
    SparedRequestsAreSaved(before, after);
    SeenIsSaved(before + after);
  }

  lemma {:induction false} SeenIsSaved(schedule: seq<Action>)
    ensures Run(START, schedule).seen > 0 ==> Run(START, schedule).saves > 0
  {
    if schedule != [] { SeenIsSaved(schedule[..|schedule| - 1]); }
  }

  /** A cancel that finds a save pending discards it: nothing is left on its way. */
  lemma CancelDiscards(schedule: seq<Action>)
    requires Run(START, schedule).pending
    ensures var s, t := Run(START, schedule), Run(START, schedule + [Cancel]);
      !t.pending && t.due == s.due && t.seen == s.seen && t.settled == t.requests == s.requests
  {
    RunAppend(START, schedule, Cancel);
  }

  /** A flush that finds a save pending decides it there and then, and disarms its timer: the save
      it makes sees every request. */
  lemma FlushSaves(schedule: seq<Action>)
    requires Run(START, schedule).pending
    ensures var s, t := Run(START, schedule), Run(START, schedule + [Flush] + [Save]);
      && !t.pending && t.timer.None? && s.timer.Some? && s.timer.value !in t.armed
      && t.saves == s.saves + 1 && t.due == s.due && t.seen == t.requests == s.requests
  {
    RunInv(schedule);
    RunAppend(START, schedule, Flush);
    RunAppend(START, schedule + [Flush], Save);
  }

  /** A flush that finds nothing pending decides nothing. */
  lemma FlushOfNothing(schedule: seq<Action>)
    requires !Run(START, schedule).pending
    ensures var s, t := Run(START, schedule), Run(START, schedule + [Flush]);
      !t.pending && t.due == s.due && t.saves == s.saves && t.timer.None?
  {
    RunAppend(START, schedule, Flush);
  }

  /** A request starts the wait over: the timer it arms is a new one, and the one before it, if it
      has not fired, never will. */
  lemma RequestsStartOver(schedule: seq<Action>)
    ensures var s, t := Run(START, schedule), Run(START, schedule + [Request]);
      && t.pending && t.timer.Some? && t.timer.value in t.armed && t.timer.value !in s.armed + s.fired
      && (s.timer.Some? ==> s.timer.value !in t.armed) && t.fired == s.fired
  {
    RunInv(schedule);
    RunAppend(START, schedule, Request);
  }
}
