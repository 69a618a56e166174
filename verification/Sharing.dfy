/** Sharing: which dragon roars are sent, and the gate that closes for the session. */
module Sharing {
  import opened Options

  const DEDUPE := 4
  const PRUNE := 45

  type Spell = string

  datatype Roar = Roar(spell: Spell, time: int)

  // -- roars -------------------------------------------------------------------------------------

  /** A roar of the same spell less than the window before. */
  predicate Repeats(recent: seq<Roar>, roar: Roar) {
    exists i | 0 <= i < |recent| :: recent[i].spell == roar.spell && roar.time - recent[i].time < DEDUPE
  }

  function Kept(recent: seq<Roar>, roar: Roar): seq<Roar> {
    if recent == [] then []
    else
      var last := recent[|recent| - 1];
      var keep := last.spell != roar.spell && roar.time - last.time <= PRUNE;
      Kept(recent[..|recent| - 1], roar) + if keep then [last] else []
  }

  /** The list once a roar has come by. */
  function Heard(recent: seq<Roar>, roar: Roar): seq<Roar> {
    if Repeats(recent, roar) then recent else Kept(recent, roar) + [roar]
  }

  class RoarSender {
    var recent: seq<Roar>

    constructor ()
      ensures recent == []
    {
      recent := [];
    }

    /** Sends the roar unless it repeats one just sent; `allowed` is every other gate. */
    method OnDragonRoar(roar: Roar, allowed: bool) returns (sent: bool)
      modifies this
      ensures sent == (allowed && !Repeats(old(recent), roar))
      ensures recent == if allowed then Heard(old(recent), roar) else old(recent)
    {
      if !allowed { return false; }
      for n := 0 to |recent|
        invariant recent == old(recent)
        invariant forall i | 0 <= i < n :: !(recent[i].spell == roar.spell && roar.time - recent[i].time < DEDUPE)
      {
        if recent[n].spell == roar.spell && roar.time - recent[n].time < DEDUPE { return false; }
      }
      var kept: seq<Roar> := [];
      for n := 0 to |recent|
        invariant recent == old(recent) && kept == Kept(recent[..n], roar)
      {
        assert recent[..n + 1][..n] == recent[..n];
        if recent[n].spell != roar.spell && roar.time - recent[n].time <= PRUNE { kept := kept + [recent[n]]; }
      }
      assert recent[..|recent|] == recent;
      recent := kept + [roar];
      return true;
    }
  }

  /** The list after the roars that got past the other gates. */
  function Recent(roars: seq<Roar>): seq<Roar> {
    if roars == [] then [] else Heard(Recent(roars[..|roars| - 1]), roars[|roars| - 1])
  }

  predicate SentAt(roars: seq<Roar>, i: nat)
    requires i < |roars|
  {
    !Repeats(Recent(roars[..i]), roars[i])
  }

  /** Every roar ever sent. */
  function History(roars: seq<Roar>): seq<Roar> {
    if roars == [] then []
    else
      var init, last := roars[..|roars| - 1], roars[|roars| - 1];
      if Repeats(Recent(init), last) then History(init) else History(init) + [last]
  }

  ghost predicate InOrder(roars: seq<Roar>) {
    forall i, j | 0 <= i < j < |roars| :: roars[i].time <= roars[j].time
  }

  /** The pruned list against the whole history: nothing invented, one entry a spell, and
      whatever of the history is missing is too old to matter or has a later entry instead. */
  ghost predicate Stands(roars: seq<Roar>) {
    var recent, history := Recent(roars), History(roars);
    && (forall r | r in recent :: r in history)
    && (forall r | r in history :: r in roars)
    && (forall i, j | 0 <= i < j < |recent| :: recent[i].spell != recent[j].spell)
    && (forall r | r in history && r !in recent ::
          Covered(recent, r) || (roars != [] && roars[|roars| - 1].time - r.time >= DEDUPE))
  }

  ghost predicate Covered(recent: seq<Roar>, r: Roar) {
    exists x | x in recent :: x.spell == r.spell && x.time >= r.time
  }

  lemma {:induction false} KeptIs(recent: seq<Roar>, roar: Roar)
    ensures forall r :: r in Kept(recent, roar) <==> r in recent && r.spell != roar.spell && roar.time - r.time <= PRUNE
    ensures (forall i, j | 0 <= i < j < |recent| :: recent[i].spell != recent[j].spell) ==>
            (forall i, j | 0 <= i < j < |Kept(recent, roar)| ::
              Kept(recent, roar)[i].spell != Kept(recent, roar)[j].spell)
  {
    if recent != [] {
      var init, last := recent[..|recent| - 1], recent[|recent| - 1];
      KeptIs(init, roar);
      assert forall r :: r in recent <==> r in init || r == last;
      var kept := Kept(init, roar);
      assert forall i | 0 <= i < |kept| :: kept[i] in kept;
    }
  }

  lemma RepeatsIn(recent: seq<Roar>, roar: Roar)
    ensures Repeats(recent, roar) <==> exists r | r in recent :: r.spell == roar.spell && roar.time - r.time < DEDUPE
  {
    if Repeats(recent, roar) {
      var i :| 0 <= i < |recent| && recent[i].spell == roar.spell && roar.time - recent[i].time < DEDUPE;
      assert recent[i] in recent;
    }
  }

  lemma OrderBefore(roars: seq<Roar>)
    requires InOrder(roars) && roars != []
    ensures InOrder(roars[..|roars| - 1])
    ensures forall r | r in roars :: r.time <= roars[|roars| - 1].time
    ensures forall r :: r in roars <==> r in roars[..|roars| - 1] || r == roars[|roars| - 1]
  {}

  lemma {:induction false} RecentStands(roars: seq<Roar>)
    requires InOrder(roars)
    ensures Stands(roars)
  {
    hide Repeats, Kept;
    if roars != [] {
      var init, roar := roars[..|roars| - 1], roars[|roars| - 1];
      OrderBefore(roars);
      RecentStands(init);
      if init != [] { assert init[|init| - 1] == roars[|roars| - 2]; }
      if Repeats(Recent(init), roar) { UnsentStands(roars, init, roar); } else { SentStands(roars, init, roar); }
    }
  }

  lemma UnsentStands(roars: seq<Roar>, init: seq<Roar>, roar: Roar)
    requires roars != [] && init == roars[..|roars| - 1] && roar == roars[|roars| - 1] && InOrder(roars)
    requires Stands(init) && Repeats(Recent(init), roar)
    ensures Stands(roars)
  {
    hide Repeats;
    assert forall r | r in init :: r in roars;
    if init != [] { assert init[|init| - 1].time <= roar.time; }
  }

  lemma SentStands(roars: seq<Roar>, init: seq<Roar>, roar: Roar)
    requires roars != [] && init == roars[..|roars| - 1] && roar == roars[|roars| - 1] && InOrder(roars)
    requires Stands(init) && !Repeats(Recent(init), roar)
    ensures Stands(roars)
  {
    hide Repeats, Kept, Covered;
    var before, history := Recent(init), History(init);
    var recent := Recent(roars);
    KeptIs(before, roar);
    OrderBefore(roars);
    var kept := Kept(before, roar);
    assert recent == kept + [roar] && History(roars) == history + [roar];
    hide Recent, History;
    assert forall r :: r in recent <==> r in kept || r == roar;
    assert forall i | 0 <= i < |kept| :: kept[i] in kept;
    if init != [] { assert init[|init| - 1].time <= roar.time; }
    forall r | r in history && r !in recent ensures Covered(recent, r) || roar.time - r.time >= DEDUPE {
      assert r in roars;
      if r in before || !Covered(before, r) {
        if r.spell == roar.spell { CoveredBy(recent, r, roar); }
      } else {
        var x := Covering(before, r);
        if x in kept { CoveredBy(recent, r, x); }
        else if x.spell == roar.spell { CoveredBy(recent, r, roar); }
      }
    }
  }

  lemma CoveredBy(recent: seq<Roar>, r: Roar, x: Roar)
    requires x in recent && x.spell == r.spell && x.time >= r.time
    ensures Covered(recent, r)
  {}

  lemma Covering(recent: seq<Roar>, r: Roar) returns (x: Roar)
    requires Covered(recent, r)
    ensures x in recent && x.spell == r.spell && x.time >= r.time
  {
    x :| x in recent && x.spell == r.spell && x.time >= r.time;
  }

  /** The history is the roars that were sent, in order. */
  lemma HistoryIsWhatWasSent(roars: seq<Roar>, i: nat)
    requires i < |roars|
    ensures History(roars[..i + 1]) == History(roars[..i]) + if SentAt(roars, i) then [roars[i]] else []
  {
    hide Repeats, Recent;
    assert roars[..i + 1][..i] == roars[..i];
  }

  /** For roars in time order, the pruned list decides every send exactly as the whole history
      of sends would: a roar is sent unless one of its spell was sent less than four seconds
      before. The list holds one entry a spell at most. */
  lemma PrunedDecidesAsHistory(roars: seq<Roar>, i: nat)
    requires InOrder(roars) && i < |roars|
    ensures SentAt(roars, i) <==>
      forall r | r in History(roars[..i]) && r.spell == roars[i].spell :: roars[i].time - r.time >= 4
    ensures forall a, b | 0 <= a < b < |Recent(roars[..i])| ::
      Recent(roars[..i])[a].spell != Recent(roars[..i])[b].spell
  {
    hide Repeats, Recent, History, Covered;
    var before := roars[..i];
    RecentStands(before);
    var recent, history := Recent(before), History(before);
    RepeatsIn(recent, roars[i]);
    forall r | r in history && r.spell == roars[i].spell && roars[i].time - r.time < DEDUPE
      ensures exists x | x in recent :: x.spell == roars[i].spell && roars[i].time - x.time < DEDUPE
    {
      if r !in recent {
        if before != [] { assert before[|before| - 1].time <= roars[i].time; }
        var x := Covering(recent, r);
      }
    }
  }

  /** A send leaves on the list itself and what there was of other spells, no older than 45
      seconds. A roar that is not sent leaves the list alone. */
  lemma RecentAre(roars: seq<Roar>, i: nat)
    requires i < |roars|
    ensures var before, after := Recent(roars[..i]), Recent(roars[..i + 1]);
      if SentAt(roars, i) then
        forall r :: r in after <==>
          r == roars[i] || (r in before && r.spell != roars[i].spell && roars[i].time - r.time <= 45)
      else after == before
  {
    hide Repeats, Kept;
    assert roars[..i + 1][..i] == roars[..i];
    KeptIs(Recent(roars[..i]), roars[i]);
  }

  /** Two sends of one spell are four seconds apart. */
  lemma {:induction false} SendsAreSpaced(roars: seq<Roar>)
    requires InOrder(roars)
    ensures var history := History(roars);
      forall i, j | 0 <= i < j < |history| && history[i].spell == history[j].spell ::
        history[j].time - history[i].time >= 4
  {
    if roars != [] {
      var init, roar := roars[..|roars| - 1], roars[|roars| - 1];
      OrderBefore(roars);
      SendsAreSpaced(init);
      PrunedDecidesAsHistory(roars, |roars| - 1);
    }
  }

  /** Out of order, a pruned entry can let a repeat through. */
  lemma OutOfOrderRepeats()
    ensures var roars := [Roar("A", 100), Roar("B", 200), Roar("A", 101)];
      SentAt(roars, 2) && Repeats(History(roars[..2]), roars[2])
  {
    var a, b, again := Roar("A", 100), Roar("B", 200), Roar("A", 101);
    var roars := [a, b, again];
    assert roars[..2] == [a, b] && [a, b][..1] == [a] && [a][..0] == [];
    assert Recent([]) == [] && History([]) == [];
    assert Recent([a]) == [a] && History([a]) == [a];
    assert Kept([a], b) == [] by { assert Kept([], b) == []; }
    assert Recent([a, b]) == [b] && History([a, b]) == [a, b];
    assert [a, b][0] == a;
  }

  // -- the gate ----------------------------------------------------------------------------------------

  datatype Mode = Off | PigParse | Nparse

  /** A unit of work handed to the worker, and then perhaps to the driver's inbox. */
  type Job = nat

  /** The network worker and the driver each check the gate and then act, and the mode can be
      changed and applied from another thread in between: `sending` is past the worker's check
      and not yet on the wire, `applying` past the driver's and not yet applied. */
  datatype Gate = Gate(
    client: bool,
    mode: Mode,
    launch: Mode,
    queue: seq<Job>,
    sending: Option<Job>,
    inbox: seq<Job>,
    applying: Option<Job>,
    fetched: seq<Job>,
    applied: seq<Job>)

  datatype Action =
    | SetMode(mode: Mode)   // the setting changes
    | ApplyMode             // and is pushed onto the running app
    | Submit(job: Job)
    | CheckFetch            // the worker takes the oldest job and checks
    | Fetch                 // and makes the request
    | CheckApply            // the driver takes the oldest result and checks
    | Apply                 // and applies it

  predicate Allowed(g: Gate) { g.client && g.mode == PigParse && g.launch == PigParse }

  predicate Enabled(g: Gate, a: Action) {
    match a
    case CheckFetch => g.sending.None? && g.queue != []
    case Fetch => g.sending.Some?
    case CheckApply => g.applying.None? && g.inbox != []
    case Apply => g.applying.Some?
    case _ => true
  }

  function Next(g: Gate, a: Action): Gate
    requires Enabled(g, a)
  {
    match a
    case SetMode(mode) => g.(mode := mode)
    case ApplyMode => if g.mode == g.launch || !g.client then g else g.(client := false)
    case Submit(job) => if Allowed(g) then g.(queue := g.queue + [job]) else g
    case CheckFetch => g.(queue := g.queue[1..], sending := if Allowed(g) then Some(g.queue[0]) else None)
    case Fetch =>
      g.(sending := None, fetched := g.fetched + [g.sending.value], inbox := g.inbox + [g.sending.value])
    case CheckApply => g.(inbox := g.inbox[1..], applying := if Allowed(g) then Some(g.inbox[0]) else None)
    case Apply => g.(applying := None, applied := g.applied + [g.applying.value])
  }

  /** Any schedule at all: actions that cannot happen yet are skipped. */
  function Run(g: Gate, actions: seq<Action>): Gate {
    if actions == [] then g
    else
      var h, a := Run(g, actions[..|actions| - 1]), actions[|actions| - 1];
      if Enabled(h, a) then Next(h, a) else h
  }

  function Held(job: Option<Job>): seq<Job> {
    match job case None => [] case Some(j) => [j]
  }

  /** The work that has ever passed a check: done, and in hand. */
  function PassedFetch(g: Gate): seq<Job> { g.fetched + Held(g.sending) }

  function PassedApply(g: Gate): seq<Job> { g.applied + Held(g.applying) }

  /** Nothing passes a check between the two, and no new work is queued. */
  ghost predicate NothingPasses(g: Gate, h: Gate) {
    && PassedFetch(h) == PassedFetch(g) && PassedApply(h) == PassedApply(g)
    && |h.queue| <= |g.queue| && h.queue == g.queue[|g.queue| - |h.queue|..]
  }

  /** Once applying a mode has dropped the client nothing passes a check again, whatever modes
      are set and applied later: nothing submitted or already queued is fetched and no result
      is applied, but for the one request and the one result that were past their checks. */
  lemma {:induction false} DroppedStaysDropped(g: Gate, later: seq<Action>)
    requires !g.client
    ensures !Run(g, later).client && NothingPasses(g, Run(g, later))
  {
    if later != [] { DroppedStaysDropped(g, later[..|later| - 1]); }
  }

  /** Applying any mode but the one the app was built with drops the client, and setting the
      mode back brings nothing back. */
  lemma LeavingTheLaunchModeIsFinal(g: Gate, mode: Mode, later: seq<Action>)
    requires mode != g.launch
    ensures var left := Run(g, [SetMode(mode), ApplyMode]);
      !Run(left, later).client && NothingPasses(g, Run(left, later))
  {
    assert [SetMode(mode), ApplyMode][..1] == [SetMode(mode)] && [SetMode(mode)][..0] == [];
    assert Run(g, [SetMode(mode)]) == Next(Run(g, []), SetMode(mode));
    DroppedStaysDropped(Run(g, [SetMode(mode), ApplyMode]), later);
  }

  /** A session built for anything but pigparse never fetches or applies, whatever its mode
      is set to later. */
  lemma {:induction false} OnlyPigParseSessionsFetch(g: Gate, actions: seq<Action>)
    requires g.launch != PigParse
    ensures Run(g, actions).launch == g.launch && NothingPasses(g, Run(g, actions))
  {
    if actions != [] { OnlyPigParseSessionsFetch(g, actions[..|actions| - 1]); }
  }

  /** While the mode is not pigparse nothing passes a check, client or no client. */
  lemma {:induction false} NothingPassesInAnotherMode(g: Gate, actions: seq<Action>)
    requires g.mode != PigParse && SetMode(PigParse) !in actions
    ensures Run(g, actions).mode != PigParse && NothingPasses(g, Run(g, actions))
  {
    if actions != [] {
      var init, a := actions[..|actions| - 1], actions[|actions| - 1];
      assert a in actions && forall b | b in init :: b in actions;
      NothingPassesInAnotherMode(g, init);
    }
  }

  /** Applying the mode the session was launched with drops nothing. */
  lemma {:induction false} TheLaunchModeKeepsTheClient(g: Gate, actions: seq<Action>)
    requires g.client && g.mode == g.launch && forall a | a in actions :: a.SetMode? ==> a.mode == g.launch
    ensures var h := Run(g, actions); h.client && h.mode == g.launch == h.launch
  {
    if actions != [] {
      var init, a := actions[..|actions| - 1], actions[|actions| - 1];
      assert a in actions && forall b | b in init :: b in actions;
      TheLaunchModeKeepsTheClient(g, init);
    }
  }

  /** And in a session built for it, in that mode and with its client, a job handed in goes all the
      way: fetched, and its result applied. */
  lemma AllowedJobsAreApplied(g: Gate, job: Job)
    requires g.client && g.mode == PigParse && g.launch == PigParse
    requires g.queue == [] && g.inbox == [] && g.sending.None? && g.applying.None?
    ensures var h := Run(g, [Submit(job), CheckFetch, Fetch, CheckApply, Apply]);
      h == g.(fetched := g.fetched + [job], applied := g.applied + [job])
  {
    var all := [Submit(job), CheckFetch, Fetch, CheckApply, Apply];
    assert all[..4][..3] == all[..3] && all[..3][..2] == all[..2] && all[..2][..1] == all[..1] && all[..1][..0] == [];
    assert Run(g, []) == g;
    assert Run(g, all[..1]) == Next(g, Submit(job));
    assert Run(g, all[..2]) == Next(Run(g, all[..1]), CheckFetch);
    assert Run(g, all[..3]) == Next(Run(g, all[..2]), Fetch);
    assert Run(g, all[..4]) == Next(Run(g, all[..3]), CheckApply);
    assert [job][1..] == [];
  }
}
