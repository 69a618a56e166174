/** What each call does to the meter, from what goes into it. */
module FightEffects {
  import opened Options
  import opened Text
  import opened BestWindow
  import opened FightValues
  import opened FightRuns
  import opened FightLedger
  import opened FightRowLedger

  // -- one damage line -------------------------------------------------------------------------

  /** The higher of two level guesses, where there are any. */
  function Higher(a: Option<int>, b: Option<int>): Option<int> {
    if a.None? then b else if b.None? || a.value >= b.value then a else b
  }

  /** A row with one more hit, measured at the hit's time under the window in force. */
  function WithHit(row: Entity, ev: Event, window: int): Entity {
    var hits := row.hits + [Hit(ev.at, ev.damage)];
    row.(hits := hits, level := Higher(row.level, ev.level), window := window,
         trailing := Trailing(hits, ev.at - window), best := Best(hits, |hits|, window))
  }

  /** A row of a fight against `target` that took no hit: a guess about its target reaches it. */
  function WithGuess(row: Entity, target: string, who: string, guess: Option<int>, fold: Fold): Entity {
    if fold(target) == fold(who) then row.(level := Higher(row.level, guess)) else row
  }

  ghost predicate OnlyGuessed(f: Fight, g: Fight, who: string, guess: Option<int>, fold: Fold) {
    && g == f.(rows := g.rows) && |g.rows| == |f.rows|
    && forall i | 0 <= i < |f.rows| :: g.rows[i] == WithGuess(f.rows[i], f.target, who, guess, fold)
  }

  /** The hit is on row `k` of `g`, the only one of its folded attacker, there before or new. */
  ghost predicate HitsRow(f: Fight, g: Fight, k: int, who: string, ev: Event, window: int, fold: Fold) {
    && g == f.(rows := g.rows) && 0 <= k < |g.rows|
    && (if k < |f.rows| then |g.rows| == |f.rows| && f.rows[k].key == fold(who)
        else k == |f.rows| && |g.rows| == k + 1)
    && (forall i | 0 <= i < |f.rows| && i != k ::
          f.rows[i].key != fold(who) && g.rows[i] == WithGuess(f.rows[i], f.target, who, ev.level, fold))
    && g.rows[k] == WithHit(
         if k < |f.rows| then f.rows[k] else Entity(fold(who), who, ev.at, None, None, [], 0, 0, window), ev, window)
  }

  ghost predicate IsHit(f: Fight, g: Fight, who: string, ev: Event, window: int, fold: Fold) {
    exists k :: HitsRow(f, g, k, who, ev, window, fold)
  }

  /** The hit is on fight `j` of `t`: the live one against that target, or one opened for it. */
  ghost predicate HitsFight(s: Tracker, t: Tracker, j: int, who: string, ev: Event, fold: Fold) {
    && t == s.(fights := t.fights, nextId := t.nextId) && 0 <= j < |t.fights|
    && (if j < |s.fights| then
          |t.fights| == |s.fights| && t.nextId == s.nextId &&
          s.fights[j].death.None? && fold(s.fights[j].target) == fold(ev.target)
        else
          j == |s.fights| && |t.fights| == j + 1 && t.nextId == s.nextId + 1 &&
          forall i | 0 <= i < |s.fights| :: s.fights[i].death.None? ==> fold(s.fights[i].target) != fold(ev.target))
    && IsHit(if j < |s.fights| then s.fights[j] else Fight(s.nextId, ev.target, ev.at, None, []),
             t.fights[j], who, ev, s.rules.window, fold)
    && forall i | 0 <= i < |s.fights| && i != j :: OnlyGuessed(s.fights[i], t.fights[i], who, ev.level, fold)
  }

  ghost predicate Lands(s: Tracker, t: Tracker, who: string, ev: Event, fold: Fold) {
    exists j :: HitsFight(s, t, j, who, ev, fold)
  }

  lemma RowHitIs(row: Entity, ev: Event, window: int)
    requires row.death.None?
    ensures RowHit(row.(window := window), ev.at, ev.damage, ev.level) == WithHit(row, ev, window)
  {
    hide Trailing, Best;
  }

  lemma SpreadIs(f: Fight, who: string, guess: Option<int>, fold: Fold)
    ensures OnlyGuessed(f, Spread(f, who, guess, fold), who, guess, fold)
  {}

  lemma GuessOnHit(row: Entity, ev: Event, window: int, target: string, who: string, fold: Fold)
    ensures WithGuess(WithHit(row, ev, window), target, who, ev.level, fold) == WithHit(row, ev, window)
  {
    hide Trailing, Best;
  }

  lemma HitThenSpread(f: Fight, who: string, ev: Event, window: int, fold: Fold)
    requires f.death.None? && (f.rows == [] || FightOk(f))
    ensures var hit := FightHit(f, fold(who), who, ev.at, ev.damage, ev.level, window);
      IsHit(f, Spread(hit, who, ev.level, fold), who, ev, window, fold)
  {
    var k := RowIndex(f.rows, fold(who));
    var row := if k < |f.rows| then f.rows[k] else Entity(fold(who), who, ev.at, None, None, [], 0, 0, window);
    assert row.death.None? by { if k < |f.rows| { assert RowOk(f.rows[k], None); } }
    HitIsWithRow(f, fold(who), who, ev.at, ev.damage, ev.level, window);
    OneRowAKey(f, fold(who));
    RowHitIs(row, ev, window);
    assert RowFor(f, fold(who), who, ev.at, window) == row.(window := window);
    var hit := FightHit(f, fold(who), who, ev.at, ev.damage, ev.level, window);
    SpreadIs(hit, who, ev.level, fold);
    GuessOnHit(row, ev, window, f.target, who, fold);
    var struck := WithHit(row, ev, window);
    hide *;
    WithRowSpread(f, hit, k, struck, Spread(hit, who, ev.level, fold), who, ev, window, fold);
  }

  /** The row at `k` struck, and then every row told of the guess. */
  lemma WithRowSpread(f: Fight, hit: Fight, k: nat, struck: Entity, g: Fight, who: string, ev: Event, window: int,
          fold: Fold)
    requires k <= |f.rows| && hit == f.(rows := WithRow(f.rows, k, struck))
    requires OnlyGuessed(hit, g, who, ev.level, fold)
    requires forall i | 0 <= i < |f.rows| && i != k :: f.rows[i].key != fold(who)
    requires k < |f.rows| ==> f.rows[k].key == fold(who)
    requires struck == WithHit(
      if k < |f.rows| then f.rows[k] else Entity(fold(who), who, ev.at, None, None, [], 0, 0, window), ev, window)
    requires WithGuess(struck, f.target, who, ev.level, fold) == struck
    ensures IsHit(f, g, who, ev, window, fold)
  {
    hide WithHit, WithGuess;
    assert HitsRow(f, g, k, who, ev, window, fold);
  }

  lemma CreditedLands(s: Tracker, ev: Event, fold: Fold)
    requires TrackerOk(s, fold) && Credited(s, ev).Some?
    ensures Lands(s, TakeDamage(s, ev, fold), Credited(s, ev).value, ev, fold)
  {
    hide FightHit, FightOk, Landed, Credited, Spread, IsHit, OnlyGuessed, IdsRise;
    var who, j := Credited(s, ev).value, ActiveIndex(s.fights, ev.target, fold);
    var t := TakeDamage(s, ev, fold);
    TakeIsLandThenSpread(s, ev, fold);
    LandedShape(s, who, ev, fold);
    StruckIsLive(s, ev, fold);
    HitThenSpread(Struck(s, ev, fold), who, ev, s.rules.window, fold);
    forall i | 0 <= i < |s.fights| && i != j ensures OnlyGuessed(s.fights[i], t.fights[i], who, ev.level, fold) {
      SpreadIs(s.fights[i], who, ev.level, fold);
    }
    assert HitsFight(s, t, j, who, ev, fold);
  }

  // -- who is credited ---------------------------------------------------------------------------

  /** Some cast of yours, neither interrupted nor cleared away since, landed or was due to land
      no longer than `credit` before `at`. */
  ghost predicate YourCastCovers(ops: seq<Op>, at: int, credit: int) {
    exists k :: Standing(ops, k) && (at <= ops[k].when + credit || at <= ops[k].when + ops[k].castTime + credit)
  }

  /** Who a damage line lands on, if on anybody: melee on whoever swung; a spell on nobody when
      only melee counts; otherwise a line of yours on you while a cast of yours covers it; and
      what is left on its attacker, or on nobody's row when it is a cold "You", if all
      sources count. */
  lemma WhoIsCredited(rules: Rules, ops: seq<Op>, fold: Fold, ev: Event)
    ensures var s := Run(Start(rules), ops, fold);
      var t, sources := TakeDamage(s, ev, fold), s.rules.sources;
      if ev.attacker == "" || ev.attacker == ev.target then t == s
      else if ev.melee then Lands(s, t, ev.attacker, ev, fold)
      else if sources == Melee then t == s
      else if ev.attacker == "You" && YourCastCovers(ops, ev.at, s.rules.credit) then Lands(s, t, "You", ev, fold)
      else if sources == MeleeAndMine then t == s
      else Lands(s, t, if ev.attacker == "You" then "(spell damage)" else ev.attacker, ev, fold)
  {
    var s := Run(Start(rules), ops, fold);
    RunOk(rules, ops, fold);
    ArmedByACast(rules, ops, fold, ev.at - s.rules.credit);
    assert YourCastCovers(ops, ev.at, s.rules.credit) <==> WithinCredit(s, ev.at) by {
      CoversIs(ops, ev.at, s.rules.credit);
    }
    hide Run, YourCastCovers, Lands, TrackerOk, WithinCredit;
    if Credited(s, ev).Some? { CreditedLands(s, ev, fold); }
  }

  lemma CoversIs(ops: seq<Op>, at: int, credit: int)
    ensures YourCastCovers(ops, at, credit) <==> exists k :: Standing(ops, k) && at - credit <= LandsAt(ops[k])
  {
    if YourCastCovers(ops, at, credit) {
      var k :| Standing(ops, k) && (at <= ops[k].when + credit || at <= ops[k].when + ops[k].castTime + credit);
      assert Standing(ops, k) && at - credit <= FightLedger.LandsAt(ops[k]);
    }
    if exists k :: Standing(ops, k) && at - credit <= FightLedger.LandsAt(ops[k]) {
      var k :| Standing(ops, k) && at - credit <= FightLedger.LandsAt(ops[k]);
      assert Standing(ops, k) && (at <= ops[k].when + credit || at <= ops[k].when + ops[k].castTime + credit);
    }
  }

  /** Counting all sources no event is lost: one that names an attacker other than its target
      lands, melee and other attackers' spells on the attacker it names. */
  lemma AllSourcesLoseNothing(rules: Rules, ops: seq<Op>, fold: Fold, ev: Event)
    requires Run(Start(rules), ops, fold).rules.sources == All && ev.attacker != "" && ev.attacker != ev.target
    ensures var s := Run(Start(rules), ops, fold);
      var t := TakeDamage(s, ev, fold);
      Lands(s, t, ev.attacker, ev, fold) ||
      (Lands(s, t, "(spell damage)", ev, fold) && ev.attacker == "You" && !ev.melee &&
       !YourCastCovers(ops, ev.at, s.rules.credit))
  {
    WhoIsCredited(rules, ops, fold, ev);
  }

  // -- a death -------------------------------------------------------------------------------------

  ghost predicate AliveAgainst(f: Fight, victim: string, fold: Fold) {
    f.death.None? && fold(f.target) == fold(victim)
  }

  /** `g` is `f`, dead and all its rows with it, and otherwise as it was. */
  ghost predicate DiedAt(f: Fight, g: Fight, when: int) {
    && g == f.(death := Some(when), rows := g.rows) && |g.rows| == |f.rows|
    && forall k | 0 <= k < |f.rows| :: g.rows[k] == f.rows[k].(death := Some(when))
  }

  /** A death line kills every live fight against its victim, rows included, and no other; a
      blank victim kills none. None against the victim is left alive. */
  lemma EndingKills(s: Tracker, victim: string, when: int, fold: Fold)
    requires TrackerOk(s, fold)
    ensures var t := EndFights(s, victim, when, fold);
      if forall c | c in victim :: IsSpace(c) then t == s
      else
        && t == s.(fights := t.fights) && |t.fights| == |s.fights|
        && (forall i | 0 <= i < |s.fights| ::
              if AliveAgainst(s.fights[i], victim, fold) then DiedAt(s.fights[i], t.fights[i], when)
              else t.fights[i] == s.fights[i])
        && forall f | f in t.fights :: !AliveAgainst(f, victim, fold)
    ensures LiveAmong(s.fights, victim, fold) <==> exists f | f in s.fights :: AliveAgainst(f, victim, fold)
  {
    hide FightOk, FightDie, IdsRise;
    var t := EndFights(s, victim, when, fold);
    forall i | 0 <= i < |s.fights| && AliveAgainst(s.fights[i], victim, fold)
      ensures DiedAt(s.fights[i], FightDie(s.fights[i], when), when)
    {
      DieIs(s.fights[i], when);
    }
    if exists f | f in s.fights :: AliveAgainst(f, victim, fold) {
      var f :| f in s.fights && AliveAgainst(f, victim, fold);
      assert LiveAgainst(f, victim, fold);
    }
  }

  lemma DieIs(f: Fight, when: int)
    requires FightOk(f) && f.death.None?
    ensures DiedAt(f, FightDie(f, when), when)
  {
    assert forall k | 0 <= k < |f.rows| :: RowOk(f.rows[k], None);
  }

  // -- a tick ----------------------------------------------------------------------------------------

  /** A live row takes up the window in force and is measured at `now`; a dead one stays. */
  function RowTicked(row: Entity, now: int, window: int): Entity {
    if row.death.Some? then row
    else row.(window := window, trailing := Trailing(row.hits, now - window),
              best := Best(row.hits, |row.hits|, window))
  }

  ghost predicate Ticked(f: Fight, g: Fight, now: int, window: int) {
    && g == f.(rows := g.rows) && |g.rows| == |f.rows|
    && forall k | 0 <= k < |f.rows| :: g.rows[k] == RowTicked(f.rows[k], now, window)
  }

  /** Some hit of the fight is no older than the retention. */
  ghost predicate StruckSince(f: Fight, now: int, retention: int) {
    exists k, i :: HitSince(f, k, i, now, retention)
  }

  ghost predicate HitSince(f: Fight, k: int, i: int, now: int, retention: int) {
    0 <= k < |f.rows| && 0 <= i < |f.rows[k].hits| && now - f.rows[k].hits[i].at <= retention
  }

  lemma RefreshTicks(f: Fight, now: int, window: int)
    requires FightOk(f)
    ensures Ticked(f, FightRefresh(f, now, window), now, window)
  {
    hide Trailing, Best;
    assert forall k | 0 <= k < |f.rows| :: f.rows[k].hits != [] by {
      forall k | 0 <= k < |f.rows| ensures f.rows[k].hits != [] { assert RowOk(f.rows[k], f.death); }
    }
  }

  /** After a tick every fight on the meter is one that was there, its live rows following the
      window in force, whatever window they had followed before. */
  lemma TickRefreshes(s: Tracker, now: int, fold: Fold)
    requires TrackerOk(s, fold)
    ensures forall g | g in TickAll(s, now).fights ::
      exists i :: 0 <= i < |s.fights| && Ticked(s.fights[i], g, now, s.rules.window)
  {
    var r := RefreshFights(s, now);
    RetireIsFilter(r.fights, now, s.rules.retention);
    hide FightOk, IdsRise, FightRefresh, Ticked, Retire, Kept;
    forall g | g in TickAll(s, now).fights
      ensures exists i :: 0 <= i < |s.fights| && Ticked(s.fights[i], g, now, s.rules.window)
    {
      var i :| 0 <= i < |r.fights| && r.fights[i] == g;
      RefreshTicks(s.fights[i], now, s.rules.window);
    }
  }

  // -- how a fight begins and when it leaves ---------------------------------------------------------

  /** Every row is keyed by its attacker's folded name and starts at its first hit, and the
      fight starts with the first of them. */
  ghost predicate Begun(f: Fight, fold: Fold) {
    && f.rows != [] && f.start == f.rows[0].start
    && forall k | 0 <= k < |f.rows| :: RowBegun(f.rows[k], fold)
  }

  ghost predicate RowBegun(row: Entity, fold: Fold) {
    row.hits != [] && row.start == row.hits[0].at && row.key == fold(row.attacker)
  }

  ghost predicate AllBegun(s: Tracker, fold: Fold) {
    forall i | 0 <= i < |s.fights| :: Begun(s.fights[i], fold)
  }

  lemma SameBegun(f: Fight, g: Fight, fold: Fold)
    requires Begun(f, fold) && g.start == f.start && |g.rows| == |f.rows|
    requires forall k | 0 <= k < |f.rows| :: SameStart(f.rows[k], g.rows[k])
    ensures Begun(g, fold)
  {}

  ghost predicate SameStart(row: Entity, after: Entity) {
    && row.hits <= after.hits
    && after.start == row.start && after.key == row.key && after.attacker == row.attacker
  }

  lemma HitBegun(f: Fight, g: Fight, who: string, ev: Event, window: int, fold: Fold)
    requires IsHit(f, g, who, ev, window, fold) && (Begun(f, fold) || (f.rows == [] && f.start == ev.at))
    ensures Begun(g, fold)
  {
    var k :| HitsRow(f, g, k, who, ev, window, fold);
    hide Trailing, Best;
    forall i | 0 <= i < |g.rows| ensures RowBegun(g.rows[i], fold) {
      if i < |f.rows| { assert RowBegun(f.rows[i], fold); }
    }
    assert f.rows != [] ==> SameStart(f.rows[0], g.rows[0]);
  }

  lemma LandedBegun(s: Tracker, t: Tracker, who: string, ev: Event, fold: Fold)
    requires Lands(s, t, who, ev, fold) && AllBegun(s, fold)
    ensures AllBegun(t, fold)
  {
    var j :| HitsFight(s, t, j, who, ev, fold);
    hide IsHit, Begun;
    forall i | 0 <= i < |t.fights| ensures Begun(t.fights[i], fold) {
      if i == j {
        HitBegun(if j < |s.fights| then s.fights[j] else Fight(s.nextId, ev.target, ev.at, None, []), t.fights[j],
                 who, ev, s.rules.window, fold);
      } else {
        SameBegun(s.fights[i], t.fights[i], fold);
      }
    }
  }

  lemma StepBegun(s: Tracker, op: Op, fold: Fold)
    requires TrackerOk(s, fold) && AllBegun(s, fold)
    ensures AllBegun(Step(s, op, fold), fold)
  {
    hide TrackerOk, Begun, Lands, TakeDamage, EndFights, TickAll;
    match op
    case Damage(ev) =>
      if Credited(s, ev).Some? {
        CreditedLands(s, ev, fold);
        LandedBegun(s, TakeDamage(s, ev, fold), Credited(s, ev).value, ev, fold);
      } else {
        DroppedIsDropped(s, ev, fold);
      }
    case End(victim, when) => EndedBegun(s, victim, when, fold);
    case Tick(now) => TickedBegun(s, now, fold);
    case _ => assert Step(s, op, fold).fights == s.fights || Step(s, op, fold).fights == [];
  }

  lemma DroppedIsDropped(s: Tracker, ev: Event, fold: Fold)
    requires Credited(s, ev).None?
    ensures TakeDamage(s, ev, fold) == s
  {}

  lemma EndedBegun(s: Tracker, victim: string, when: int, fold: Fold)
    requires TrackerOk(s, fold) && AllBegun(s, fold)
    ensures AllBegun(EndFights(s, victim, when, fold), fold)
  {
    hide TrackerOk, Begun, EndFights;
    EndingKills(s, victim, when, fold);
    var t := EndFights(s, victim, when, fold);
    forall i | 0 <= i < |t.fights| ensures Begun(t.fights[i], fold) {
      SameBegunIfDied(s.fights[i], t.fights[i], when, fold);
    }
  }

  lemma SameBegunIfDied(f: Fight, g: Fight, when: int, fold: Fold)
    requires Begun(f, fold) && (g == f || DiedAt(f, g, when))
    ensures Begun(g, fold)
  {
    if g != f { SameBegun(f, g, fold); }
  }

  lemma TickedBegun(s: Tracker, now: int, fold: Fold)
    requires TrackerOk(s, fold) && AllBegun(s, fold)
    ensures AllBegun(TickAll(s, now), fold)
  {
    hide TrackerOk, Begun, TickAll, Ticked;
    TickRefreshes(s, now, fold);
    var t := TickAll(s, now);
    forall j | 0 <= j < |t.fights| ensures Begun(t.fights[j], fold) {
      assert t.fights[j] in t.fights;
      var i :| 0 <= i < |s.fights| && Ticked(s.fights[i], t.fights[j], now, s.rules.window);
      SameBegunIfTicked(s.fights[i], t.fights[j], now, s.rules.window, fold);
    }
  }

  lemma SameBegunIfTicked(f: Fight, g: Fight, now: int, window: int, fold: Fold)
    requires Begun(f, fold) && Ticked(f, g, now, window)
    ensures Begun(g, fold)
  {
    SameBegun(f, g, fold);
  }

  /** In every run, fights and rows start at their first hit, rows under their attacker's
      folded name. */
  lemma {:induction false} RunBegun(rules: Rules, ops: seq<Op>, fold: Fold)
    ensures AllBegun(Run(Start(rules), ops, fold), fold)
  {
    hide Step, Begun, TrackerOk;
    if ops != [] {
      RunBegun(rules, ops[..|ops| - 1], fold);
      RunOk(rules, ops[..|ops| - 1], fold);
      StepBegun(Run(Start(rules), ops[..|ops| - 1], fold), ops[|ops| - 1], fold);
    }
  }

  /** The row's newest hit is older than the retention, or there is none. */
  predicate Idle(row: Entity, now: int, retention: int) {
    row.hits == [] || now - row.hits[|row.hits| - 1].at > retention
  }

  /** Whatever the order of the hits: a tick drops a fight exactly when retirement is on, the fight
      began longer ago than the retention, and the newest hit of every row is older than it. */
  lemma TickDropsTheQuiet(s: Tracker, now: int, fold: Fold, f: Fight)
    requires TrackerOk(s, fold) && f in s.fights
    ensures (forall g | g in TickAll(s, now).fights :: g.id != f.id) <==>
      && s.rules.retention > 0 && now - f.start > s.rules.retention
      && forall row | row in f.rows :: Idle(row, now, s.rules.retention)
  {
    LeavesOnlyWhenStale(s, Tick(now), fold, f);
    hide TrackerOk, TickAll;
    if Stale(f, now, s.rules.retention) {
      forall row | row in f.rows ensures Idle(row, now, s.rules.retention) {
        var i :| 0 <= i < |f.rows| && f.rows[i] == row;
        assert !Recent(f.rows[i], now, s.rules.retention);
      }
    }
    if forall row | row in f.rows :: Idle(row, now, s.rules.retention) {
      forall i | 0 <= i < |f.rows| ensures !Recent(f.rows[i], now, s.rules.retention) { assert f.rows[i] in f.rows; }
    }
  }

  lemma StaleIsQuiet(f: Fight, now: int, retention: int, latest: int, fold: Fold)
    requires Begun(f, fold) && OrderlyFight(f, latest)
    ensures Stale(f, now, retention) <==> retention > 0 && !StruckSince(f, now, retention)
  {
    if retention > 0 && !StruckSince(f, now, retention) {
      assert RowBegun(f.rows[0], fold) && !HitSince(f, 0, 0, now, retention);
      forall k | 0 <= k < |f.rows| ensures !Recent(f.rows[k], now, retention) {
        assert !HitSince(f, k, |f.rows[k].hits| - 1, now, retention);
      }
    }
    if StruckSince(f, now, retention) {
      var k, i :| HitSince(f, k, i, now, retention);
      assert OrderlyRow(f.rows[k], latest);
      assert Recent(f.rows[k], now, retention);
    }
  }

  /** In every run in log order, a fight is still there after a tick exactly when retirement is
      off or somebody, anybody, has hit its target within the retention. */
  lemma StaysWhileStruck(rules: Rules, ops: seq<Op>, fold: Fold, now: int, f: Fight)
    requires rules.window > 0 && LogOrder(ops) && f in Run(Start(rules), ops, fold).fights
    ensures var s := Run(Start(rules), ops, fold);
      (exists g | g in Step(s, Tick(now), fold).fights :: g.id == f.id) <==>
        s.rules.retention <= 0 || StruckSince(f, now, s.rules.retention)
  {
    var s := Run(Start(rules), ops, fold);
    var latest := LatestDamage(ops);
    RunOrderly(rules, ops, fold, latest);
    RunOk(rules, ops, fold);
    RunBegun(rules, ops, fold);
    LeavesOnlyWhenStale(s, Tick(now), fold, f);
    hide Run, Step, TrackerOk, OrderlyFight, Begun, LogOrder, Stale, StruckSince;
    StaleIsQuiet(f, now, s.rules.retention, latest, fold);
  }

  // -- readings ----------------------------------------------------------------------------------------

  /** The highest hit is one of the hits, unless none was above zero. */
  lemma {:induction false} HighestIs(hits: seq<Hit>)
    ensures forall i | 0 <= i < |hits| :: hits[i].damage <= Highest(hits)
    ensures Highest(hits) == 0 || exists i | 0 <= i < |hits| :: hits[i].damage == Highest(hits)
  {
    if hits != [] {
      var init := hits[..|hits| - 1];
      HighestIs(init);
      assert forall i | 0 <= i < |init| :: init[i] == hits[i];
    }
  }

  /** `q` is how often `b` goes into `a`. */
  ghost predicate GoesInto(a: int, b: int, q: int) { q * b <= a < q * b + b }

  lemma DivisionIs(a: int, b: int)
    requires b > 0
    ensures GoesInto(a, b, a / b)
  {}

  /** A row's rates: whole seconds from its start to now, or to its death; damage per whole
      second over that length; and over the whole window, however little of it has passed.
      Each is rounded down, and zero where there is nothing to divide or to divide by. */
  lemma RatesAre(row: Entity, now: int, unit: nat)
    requires unit > 0
    ensures var length := (if row.death.Some? then row.death.value else now) - row.start;
      var seconds := row.TotalSeconds(now, unit);
      && (length >= 0 ==> GoesInto(length, unit, seconds))
      && (if row.Total() > 0 && seconds > 0 then GoesInto(row.Total(), seconds, row.TotalDps(now, unit))
          else row.TotalDps(now, unit) == 0)
      && (if row.trailing > 0 && row.window > 0 then GoesInto(row.trailing * unit, row.window, row.TrailingDps(unit))
          else row.TrailingDps(unit) == 0)
  {
    var length := (if row.death.Some? then row.death.value else now) - row.start;
    var seconds := row.TotalSeconds(now, unit);
    hide GoesInto;
    DivisionIs(length, unit);
    if seconds > 0 { DivisionIs(row.Total(), seconds); }
    if row.window > 0 { DivisionIs(row.trailing * unit, row.window); }
  }
}
