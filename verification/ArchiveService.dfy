/**
 The archive service: a driver tick that swaps one staged copy or submits a sweep, and the
 background run that stages copies, as interleaved steps.
 */
module ArchiveService {
  const CHECK_INTERVAL := 3600

  /** A copy waiting for its swap. */
  type Staged = nat

  /** Where the driver's tick is: between ticks, having found nothing staged, or about to submit. */
  datatype Tick = Resting | Looked | Due

  /** The background job: idle, sweeping, or finished but not yet idle again. */
  datatype Job = Idle | Sweeping | Settling

  /** `started` is the check that submitted the latest sweep, and `saw` whether the tick in
      progress found a sweep running when it looked; `found` and `swapped` record every copy
      a sweep has handed over and every one taken for its swap. */
  datatype State = State(
    staged: seq<Staged>,
    job: Job,
    started: int,
    tick: Tick,
    saw: bool,
    lastCheck: int,
    now: int,
    found: seq<Staged>,
    swapped: seq<Staged>)

  function Start(now: int): State { State([], Idle, 0, Resting, false, 0, now, [], []) }

  datatype Action =
    | Wait(until: int)
    | Look
    | Decide(enabled: bool)
    | Submit(spawned: bool)
    | HandOver(copies: seq<Staged>)
    | Fail
    | Settle

  predicate Enabled(s: State, a: Action) {
    match a
    case Wait(until) => until >= s.now
    case Look => s.tick == Resting
    case Decide(_) => s.tick == Looked
    case Submit(_) => s.tick == Due
    case HandOver(_) => s.job == Sweeping
    case Fail => s.job == Sweeping
    case Settle => s.job == Settling
  }

  predicate Recent(s: State) { s.lastCheck != 0 && s.now - s.lastCheck < CHECK_INTERVAL }

  function Next(s: State, a: Action): State
    requires Enabled(s, a)
  {
    match a
    case Wait(until) => s.(now := until)
    case Look =>
      if s.staged != [] then s.(staged := s.staged[1..], swapped := s.swapped + [s.staged[0]])
      else s.(tick := Looked, saw := s.job == Sweeping)
    case Decide(enabled) =>
      if !enabled || Recent(s) then s.(tick := Resting) else s.(tick := Due, lastCheck := s.now)
    case Submit(spawned) =>
      if s.job == Idle && spawned then s.(tick := Resting, job := Sweeping, started := s.lastCheck)
      else s.(tick := Resting)
    case HandOver(copies) => s.(staged := copies, job := Settling, found := s.found + copies)
    case Fail => s.(job := Settling)
    case Settle => s.(job := Idle)
  }

  ghost predicate IsRun(from: State, actions: seq<Action>)
    decreases |actions|
  {
    actions == [] || (Enabled(from, actions[0]) && IsRun(Next(from, actions[0]), actions[1..]))
  }

  ghost function Last(from: State, actions: seq<Action>): State
    requires IsRun(from, actions)
    decreases |actions|
  {
    if actions == [] then from else Last(Next(from, actions[0]), actions[1..])
  }

  // -- what holds between steps ------------------------------------------------------------------

  /** Nothing handed over has been lost. */
  predicate Intact(s: State) { s.found == s.swapped + s.staged }

  /** Nothing handed over is in the way of the sweep running or about to be submitted. */
  ghost predicate Inv(s: State) {
    && Intact(s)
    && (s.job == Sweeping ==> s.staged == [])
    && (s.tick == Due || (s.tick == Looked && !s.saw) ==> s.job != Sweeping && s.staged == [])
    && s.started <= s.lastCheck <= s.now && s.now > 0
    && (s.job != Idle || s.saw || s.tick == Due ==> s.lastCheck > 0)
  }

  /** Every hand-over finds the list empty. */
  ghost predicate HandsOverToEmpty(from: State, actions: seq<Action>)
    requires IsRun(from, actions)
    decreases |actions|
  {
    actions == [] ||
    ((actions[0].HandOver? ==> from.staged == []) && HandsOverToEmpty(Next(from, actions[0]), actions[1..]))
  }

  /** The tick is about to submit over copies still waiting or still to come. */
  predicate AtRisk(s: State) { s.tick == Due && (s.job == Sweeping || s.staged != []) }

  /** No tick of the run comes due over a sweep still running or just handed over. */
  ghost predicate NeverAtRisk(from: State, actions: seq<Action>)
    requires IsRun(from, actions)
    decreases |actions|
  {
    actions == [] ||
    ((actions[0].Decide? ==> !AtRisk(Next(from, actions[0]))) && NeverAtRisk(Next(from, actions[0]), actions[1..]))
  }

  lemma StepKeepsInv(s: State, a: Action)
    requires Inv(s) && Enabled(s, a) && (a.Decide? ==> !AtRisk(Next(s, a)))
    ensures Inv(Next(s, a)) && (a.HandOver? ==> s.staged == [])
  {}

  lemma {:induction false} RunKeepsInv(from: State, actions: seq<Action>)
    requires Inv(from) && IsRun(from, actions) && NeverAtRisk(from, actions)
    ensures Inv(Last(from, actions)) && HandsOverToEmpty(from, actions)
    decreases |actions|
  {
    if actions != [] {
      StepKeepsInv(from, actions[0]);
      RunKeepsInv(Next(from, actions[0]), actions[1..]);
    }
  }

  /** While no tick comes due over a sweep still running or just handed over, a sweep only ever
      hands over to an empty list, and every copy found has been swapped, in order, or is still
      waiting. */
  lemma NothingStagedIsLost(now: int, actions: seq<Action>)
    requires now > 0 && IsRun(Start(now), actions) && NeverAtRisk(Start(now), actions)
    ensures HandsOverToEmpty(Start(now), actions) && Intact(Last(Start(now), actions))
  {
    RunKeepsInv(Start(now), actions);
  }

  // -- a timing that is never at risk ------------------------------------------------------------

  /** A tick that saw a sweep running reads the clock within an hour of the check that submitted
      that sweep. */
  ghost predicate PromptStep(s: State, a: Action) {
    a.Decide? && s.saw ==> s.now - s.started < 3600
  }

  ghost predicate Prompt(from: State, actions: seq<Action>)
    requires IsRun(from, actions)
    decreases |actions|
  {
    actions == [] || (PromptStep(from, actions[0]) && Prompt(Next(from, actions[0]), actions[1..]))
  }

  /** A check comes due an interval after the one before it, which is no earlier than the one
      that submitted the sweep: so a prompt tick that saw a sweep running is not due. */
  lemma {:induction false} PromptIsNeverAtRisk(from: State, actions: seq<Action>)
    requires Inv(from) && IsRun(from, actions) && Prompt(from, actions)
    ensures NeverAtRisk(from, actions)
    decreases |actions|
  {
    if actions != [] {
      StepKeepsInv(from, actions[0]);
      PromptIsNeverAtRisk(Next(from, actions[0]), actions[1..]);
    }
  }

  // -- and when it does not ------------------------------------------------------------------------

  /** No further tick gets past the clock. */
  ghost predicate NoDecision(actions: seq<Action>) { forall a | a in actions :: !a.Decide? }

  lemma {:induction false} QuietRunKeepsInv(from: State, actions: seq<Action>)
    requires Inv(from) && IsRun(from, actions) && NoDecision(actions)
    ensures Intact(Last(from, actions))
    decreases |actions|
  {
    if actions != [] {
      assert actions[0] in actions && forall a | a in actions[1..] :: a in actions;
      StepKeepsInv(from, actions[0]);
      QuietRunKeepsInv(Next(from, actions[0]), actions[1..]);
    }
  }

  ghost predicate Loses(from: State, actions: seq<Action>) {
    IsRun(from, actions) && NoDecision(actions) && !Intact(Last(from, actions))
  }

  /** Where all was well until the tick read the clock, a copy can be lost before another tick
      does, exactly when this one came due over a sweep still running or just handed over. */
  lemma LosesExactlyWhenAtRisk(s: State, enabled: bool)
    requires Inv(s) && s.tick == Looked
    ensures (exists actions :: Loses(Next(s, Decide(enabled)), actions)) <==> AtRisk(Next(s, Decide(enabled)))
  {
    var d := Next(s, Decide(enabled));
    if AtRisk(d) {
      var actions := Overwriting(d);
      assert Loses(d, actions);
    } else {
      assert Inv(d);
      forall actions | IsRun(d, actions) && NoDecision(actions) ensures Intact(Last(d, actions)) {
        QuietRunKeepsInv(d, actions);
      }
    }
  }

  /** From the state the first `n` steps reach, a copy can be lost before another tick decides. */
  ghost predicate CanLoseAfter(from: State, actions: seq<Action>, n: nat)
    requires IsRun(from, actions) && n <= |actions|
  {
    exists more :: Loses(After(from, actions, n), more)
  }

  /** The state the first `n` steps reach. */
  ghost function After(from: State, actions: seq<Action>, n: nat): State
    requires IsRun(from, actions) && n <= |actions|
    decreases |actions|
  {
    if n == 0 then from else After(Next(from, actions[0]), actions[1..], n - 1)
  }

  /** A whole run is safe exactly when none of its ticks is at risk: if none is, then nothing
      is lost however the background thread goes on from any point of it, and if one is, then
      from some point of it that thread can cost a copy before another tick decides. */
  lemma SafeExactlyWhenNeverAtRisk(now: int, actions: seq<Action>)
    requires now > 0 && IsRun(Start(now), actions)
    ensures NeverAtRisk(Start(now), actions) <==>
      forall n | 0 <= n <= |actions| :: !CanLoseAfter(Start(now), actions, n)
  {
    if NeverAtRisk(Start(now), actions) {
      forall n | 0 <= n <= |actions| ensures !CanLoseAfter(Start(now), actions, n) {
        NeverAtRiskNeverLoses(Start(now), actions, n);
      }
    } else {
      var n := FirstRiskLoses(Start(now), actions);
    }
  }

  lemma {:induction false} NeverAtRiskNeverLoses(from: State, actions: seq<Action>, n: nat)
    requires Inv(from) && IsRun(from, actions) && NeverAtRisk(from, actions) && n <= |actions|
    ensures !CanLoseAfter(from, actions, n)
    decreases n
  {
    if n == 0 {
      forall more | IsRun(from, more) && NoDecision(more) ensures Intact(Last(from, more)) {
        QuietRunKeepsInv(from, more);
      }
    } else {
      StepKeepsInv(from, actions[0]);
      NeverAtRiskNeverLoses(Next(from, actions[0]), actions[1..], n - 1);
      assert After(from, actions, n) == After(Next(from, actions[0]), actions[1..], n - 1);
    }
  }

  /** Up to its first tick at risk a run keeps the invariant, and right after it can lose. */
  lemma {:induction false} FirstRiskLoses(from: State, actions: seq<Action>) returns (n: nat)
    requires Inv(from) && IsRun(from, actions) && !NeverAtRisk(from, actions)
    ensures n <= |actions| && CanLoseAfter(from, actions, n)
    decreases |actions|
  {
    var next := Next(from, actions[0]);
    if actions[0].Decide? && AtRisk(next) {
      var more := Overwriting(next);
      n := 1;
      assert After(from, actions, 1) == After(next, actions[1..], 0) == next;
    } else {
      StepKeepsInv(from, actions[0]);
      var k := FirstRiskLoses(next, actions[1..]);
      n := k + 1;
      assert After(from, actions, n) == After(next, actions[1..], k);
    }
  }

  lemma RunStep(from: State, a: Action, rest: seq<Action>)
    requires Enabled(from, a) && IsRun(Next(from, a), rest)
    ensures IsRun(from, [a] + rest) && Last(from, [a] + rest) == Last(Next(from, a), rest)
  {
    assert ([a] + rest)[1..] == rest;
  }

  /** Finish, submit again, and hand over on top. */
  lemma Overwriting(d: State) returns (actions: seq<Action>)
    requires AtRisk(d) && Intact(d) && (d.job == Sweeping ==> d.staged == [])
    ensures Loses(d, actions)
  {
    match d.job {
      case Idle =>
        actions := OverwriteRuns(d);
      case Settling =>
        actions := OverwriteRuns(Next(d, Settle));
        RunStep(d, Settle, actions);
        actions := [Settle] + actions;
      case Sweeping =>
        var handed := Next(d, HandOver([0]));
        actions := OverwriteRuns(Next(handed, Settle));
        RunStep(handed, Settle, actions);
        RunStep(d, HandOver([0]), [Settle] + actions);
        actions := [HandOver([0])] + ([Settle] + actions);
    }
  }

  lemma OverwriteRuns(d: State) returns (actions: seq<Action>)
    requires d.tick == Due && d.job == Idle && Intact(d) && d.staged != []
    ensures Loses(d, actions)
  {
    var swept := Next(d, Submit(true));
    RunStep(swept, HandOver([]), []);
    RunStep(d, Submit(true), [HandOver([])]);
    actions := [Submit(true)] + [HandOver([])];
    assert [HandOver([])] + [] == [HandOver([])];
  }

  /** A sweep that outlives the interval can cost its copies. */
  lemma ALongSweepLosesItsCopies() returns (actions: seq<Action>)
    ensures IsRun(Start(1), actions) && !Intact(Last(Start(1), actions))
  {
    var s1 := Next(Start(1), Look);
    var s2 := Next(s1, Decide(true));
    var s3 := Next(s2, Submit(true));
    var s4 := Next(s3, Wait(3601));
    var s5 := Next(s4, Look);
    var s6 := Next(s5, Decide(true));
    actions := Overwriting(s6);
    RunStep(s5, Decide(true), actions);
    RunStep(s4, Look, [Decide(true)] + actions);
    RunStep(s3, Wait(3601), [Look] + ([Decide(true)] + actions));
    actions := [Wait(3601)] + ([Look] + ([Decide(true)] + actions));
    RunStep(s2, Submit(true), actions);
    RunStep(s1, Decide(true), [Submit(true)] + actions);
    RunStep(Start(1), Look, [Decide(true)] + ([Submit(true)] + actions));
    actions := [Look] + ([Decide(true)] + ([Submit(true)] + actions));
  }

  // -- when sweeps are submitted -----------------------------------------------------------------

  /** The times at which a tick of the run came due. */
  ghost function DueTimes(from: State, actions: seq<Action>): seq<int>
    requires IsRun(from, actions)
    decreases |actions|
  {
    if actions == [] then []
    else
      var next := Next(from, actions[0]);
      (if actions[0].Decide? && next.tick == Due then [from.now] else []) + DueTimes(next, actions[1..])
  }

  /** A tick comes due exactly when the archive is enabled and no check was made in the last hour. */
  lemma DueHourly(s: State, enabled: bool)
    requires s.tick == Looked
    ensures Next(s, Decide(enabled)).tick == Due <==> enabled && (s.lastCheck == 0 || s.now - s.lastCheck >= 3600)
    ensures Next(s, Decide(enabled)).lastCheck == if Next(s, Decide(enabled)).tick == Due then s.now else s.lastCheck
  {}

  /** In every run, the times at which ticks come due are at least an hour apart. */
  lemma {:induction false} ChecksAreSpaced(from: State, actions: seq<Action>)
    requires from.now > 0 && IsRun(from, actions)
    ensures forall i | 0 <= i < |DueTimes(from, actions)| ::
      DueTimes(from, actions)[i] > 0 &&
      (from.lastCheck != 0 ==> DueTimes(from, actions)[i] - from.lastCheck >= 3600)
    ensures forall i, j | 0 <= i < j < |DueTimes(from, actions)| ::
      DueTimes(from, actions)[j] - DueTimes(from, actions)[i] >= 3600
    decreases |actions|
  {
    if actions != [] { ChecksAreSpaced(Next(from, actions[0]), actions[1..]); }
  }

  /** Nothing is swept or under way. */
  predicate Quiet(s: State) { s.tick != Due && s.job != Sweeping }

  /** While the archive is disabled no sweep starts, and no copy is found. */
  lemma {:induction false} DisabledSweepsNothing(from: State, actions: seq<Action>)
    requires IsRun(from, actions) && Quiet(from) && Decide(true) !in actions
    ensures Quiet(Last(from, actions)) && Last(from, actions).found == from.found
    decreases |actions|
  {
    if actions != [] {
      assert actions[0] in actions && forall a | a in actions[1..] :: a in actions;
      DisabledSweepsNothing(Next(from, actions[0]), actions[1..]);
    }
  }

  /** A tick that finds copies waiting takes the first of them for its swap, and nothing else. */
  lemma OneSwapATick(s: State)
    requires s.tick == Resting && s.staged != []
    ensures var next := Next(s, Look);
      && next.tick == Resting && next.job == s.job && next.lastCheck == s.lastCheck
      && s.staged == [next.swapped[|s.swapped|]] + next.staged && |next.swapped| == |s.swapped| + 1
      && s.swapped <= next.swapped
  {}

  /** One sweep at a time: a tick that is due starts one when none is in flight and the thread can be
      had, and otherwise leaves the job as it is. Either way it touches no copy. */
  lemma SweepsRunOneAtATime(s: State, spawned: bool)
    requires s.tick == Due
    ensures var next := Next(s, Submit(spawned));
      && next.tick == Resting && next.staged == s.staged && next.found == s.found
      && (if s.job == Idle && spawned then next.job == Sweeping && next.started == s.lastCheck
          else next.job == s.job && next.started == s.started)
  {}

  /** A sweep that fails leaves the copies there are alone, and the job is free again after it. */
  lemma FailedSweepsTouchNothing(s: State)
    requires s.job == Sweeping
    ensures Next(Next(s, Fail), Settle) == s.(job := Idle)
  {}
}
