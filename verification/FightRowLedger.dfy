/** The ledger row by row: whose hits end up on which row of which fight. */
module FightRowLedger {
  import opened Options
  import opened BestWindow
  import opened FightValues
  import opened FightRuns
  import opened FightLedger

  /** The hits on the row of a folded attacker, none when there is no such row. */
  ghost function HitsUnder(rows: seq<Entity>, key: string): seq<Hit> {
    var i := RowIndex(rows, key);
    if i < |rows| then rows[i].hits else []
  }

  /** What one step credits to a fight under a folded attacker. */
  ghost function HitCredited(s: Tracker, op: Op, id: nat, key: string, fold: Fold): seq<Hit> {
    if op.Damage? && CreditedTo(s, op.ev, fold) == Some(id) && fold(Credited(s, op.ev).value) == key
    then [Hit(op.ev.at, op.ev.damage)] else []
  }

  /** Everything a run credited to a fight under a folded attacker, in order. */
  ghost function HitsCredited(s: Tracker, ops: seq<Op>, id: nat, key: string, fold: Fold): seq<Hit> {
    if ops == [] then []
    else
      var before := ops[..|ops| - 1];
      HitsCredited(s, before, id, key, fold) + HitCredited(Run(s, before, fold), ops[|ops| - 1], id, key, fold)
  }

  // -- rows and their hits -------------------------------------------------------------------

  lemma RowIndexIs(rows: seq<Entity>, key: string, i: nat)
    requires i <= |rows| && (i < |rows| ==> rows[i].key == key)
    requires forall j | 0 <= j < i :: rows[j].key != key
    ensures RowIndex(rows, key) == i
  {}

  /** Clocks, windows and levels do not touch the hits. */
  lemma SameHits(xs: seq<Entity>, ys: seq<Entity>, key: string)
    requires |xs| == |ys| && forall i | 0 <= i < |xs| :: xs[i].hits == ys[i].hits && xs[i].key == ys[i].key
    ensures HitsUnder(ys, key) == HitsUnder(xs, key)
  {
    RowIndexIs(ys, key, RowIndex(xs, key));
  }

  lemma WithRowHits(rows: seq<Entity>, i: nat, row: Entity, key: string)
    requires i == RowIndex(rows, row.key)
    ensures HitsUnder(WithRow(rows, i, row), key) == if key == row.key then row.hits else HitsUnder(rows, key)
  {
    hide RowIndex;
    var after := WithRow(rows, i, row);
    if key == row.key {
      RowIndexIs(after, key, i);
    } else {
      var k := RowIndex(rows, key);
      if k < |rows| { RowIndexIs(after, key, k); } else { RowIndexIs(after, key, |after|); }
    }
  }

  /** A hit lands on its attacker's row and on no other. */
  lemma HitLandsOnItsRow(f: Fight, who: string, ev: Event, window: int, fold: Fold, key: string)
    requires f.death.None? && (f.rows == [] || FightOk(f))
    ensures HitsUnder(FightHit(f, fold(who), who, ev.at, ev.damage, ev.level, window).rows, key) ==
      HitsUnder(f.rows, key) + if key == fold(who) then [Hit(ev.at, ev.damage)] else []
  {
    var row := RowFor(f, fold(who), who, ev.at, window);
    HitIsWithRow(f, fold(who), who, ev.at, ev.damage, ev.level, window);
    RowForIs(f, fold(who), who, ev.at, window);
    RowHitKeeps(row, ev.at, ev.damage, ev.level);
    hide RowIndex, RowFor, RowHit, FightHit, WithRow, FightOk, RowOk;
    WithRowHits(f.rows, RowIndex(f.rows, fold(who)), RowHit(row, ev.at, ev.damage, ev.level), key);
  }

  lemma SpreadSameHits(f: Fight, who: string, guess: Option<int>, fold: Fold, key: string)
    ensures HitsUnder(Spread(f, who, guess, fold).rows, key) == HitsUnder(f.rows, key)
  {
    SameHits(f.rows, Spread(f, who, guess, fold).rows, key);
  }

  lemma DieSameHits(f: Fight, when: int, key: string)
    ensures HitsUnder(FightDie(f, when).rows, key) == HitsUnder(f.rows, key) && FightDie(f, when).id == f.id
  {
    SameHits(f.rows, FightDie(f, when).rows, key);
  }

  lemma RefreshSameHits(f: Fight, now: int, window: int, key: string)
    ensures HitsUnder(FightRefresh(f, now, window).rows, key) == HitsUnder(f.rows, key)
    ensures FightRefresh(f, now, window).id == f.id
  {
    SameHits(f.rows, FightRefresh(f, now, window).rows, key);
  }

  // -- one step ---------------------------------------------------------------------------------

  /** `g` is the fight `f` of `s`, or one opened since, with `more` added under one attacker. */
  ghost predicate AccountsFor(s: Tracker, f: Option<Fight>, g: Fight, key: string, more: seq<Hit>) {
    match f
    case None => g.id == s.nextId && HitsUnder(g.rows, key) == more
    case Some(was) => was in s.fights && was.id == g.id && HitsUnder(g.rows, key) == HitsUnder(was.rows, key) + more
  }

  lemma StruckIsLive(s: Tracker, ev: Event, fold: Fold)
    requires TrackerOk(s, fold)
    ensures var f := Struck(s, ev, fold); f.death.None? && (f.rows == [] || FightOk(f))
  {
    hide FightOk, IdsRise;
  }

  /** A credited event lands on a fight of the meter: that fight, opened if need be, has the
      hit on its attacker's row, and its total grown by the damage. */
  ghost predicate LandsOn(t: Tracker, f: Fight, who: string, ev: Event, fold: Fold) {
    exists g | g in t.fights :: LandedOn(f, g, who, ev, fold)
  }

  ghost predicate LandedOn(f: Fight, g: Fight, who: string, ev: Event, fold: Fold) {
    && g.id == f.id && g.target == f.target && g.death.None?
    && RowsTotal(g.rows) == RowsTotal(f.rows) + ev.damage
    && forall key :: HitsUnder(g.rows, key) ==
         HitsUnder(f.rows, key) + if key == fold(who) then [Hit(ev.at, ev.damage)] else []
  }

  lemma CreditedEventLands(s: Tracker, ev: Event, fold: Fold)
    requires TrackerOk(s, fold) && Credited(s, ev).Some?
    ensures LandsOn(TakeDamage(s, ev, fold), Struck(s, ev, fold), Credited(s, ev).value, ev, fold)
  {
    hide FightHit, ActiveIndex, Landed, Credited, Spread, Struck, HitsUnder, TrackerOk;
    var who, f := Credited(s, ev).value, Struck(s, ev, fold);
    var h, j := Landed(s, who, ev, fold), ActiveIndex(s.fights, ev.target, fold);
    var hit := FightHit(f, fold(who), who, ev.at, ev.damage, ev.level, s.rules.window);
    TakeIsLandThenSpread(s, ev, fold);
    LandedShape(s, who, ev, fold);
    StruckIsLive(s, ev, fold);
    HitAddsDamage(f, fold(who), who, ev, s.rules.window);
    HitShape(f, fold(who), who, ev, s.rules.window);
    SpreadSameTotal(hit, who, ev.level, fold);
    SpreadShape(hit, who, ev.level, fold);
    var g := Spread(hit, who, ev.level, fold);
    forall key ensures HitsUnder(g.rows, key) ==
      HitsUnder(f.rows, key) + if key == fold(who) then [Hit(ev.at, ev.damage)] else []
    {
      HitLandsOnItsRow(f, who, ev, s.rules.window, fold, key);
      SpreadSameHits(hit, who, ev.level, fold, key);
    }
    assert h.fights[j] == hit;
    assert TakeDamage(s, ev, fold).fights[j] == g;
    assert LandedOn(f, g, who, ev, fold);
  }

  lemma HitShape(f: Fight, key: string, who: string, ev: Event, window: int)
    ensures var g := FightHit(f, key, who, ev.at, ev.damage, ev.level, window);
      g.id == f.id && g.target == f.target && g.death == f.death
  {
    hide RowIndex, RowHit;
  }

  lemma SpreadShape(f: Fight, who: string, guess: Option<int>, fold: Fold)
    ensures var g := Spread(f, who, guess, fold); g.id == f.id && g.target == f.target && g.death == f.death
  {}

  lemma DamageHits(s: Tracker, ev: Event, fold: Fold, j: nat, key: string) returns (f: Option<Fight>)
    requires TrackerOk(s, fold) && j < |TakeDamage(s, ev, fold).fights|
    ensures var g := TakeDamage(s, ev, fold).fights[j];
      AccountsFor(s, f, g, key, HitCredited(s, Damage(ev), g.id, key, fold))
  {
    if Credited(s, ev).None? {
      f := Some(s.fights[j]);
    } else {
      f := LandedHits(s, ev, fold, j, key);
    }
  }

  lemma LandedHits(s: Tracker, ev: Event, fold: Fold, j: nat, key: string) returns (f: Option<Fight>)
    requires TrackerOk(s, fold) && Credited(s, ev).Some? && j < |TakeDamage(s, ev, fold).fights|
    ensures var g := TakeDamage(s, ev, fold).fights[j];
      AccountsFor(s, f, g, key, HitCredited(s, Damage(ev), g.id, key, fold))
  {
    hide FightHit, ActiveIndex, Landed, Credited, Spread, HitsUnder, FightOk;
    var who, struck := Credited(s, ev).value, Struck(s, ev, fold);
    var h := Landed(s, who, ev, fold);
    TakeIsLandThenSpread(s, ev, fold);
    LandedShape(s, who, ev, fold);
    StruckIsLive(s, ev, fold);
    HitShape(struck, fold(who), who, ev, s.rules.window);
    HitLandsOnItsRow(struck, who, ev, s.rules.window, fold, key);
    assert HitsUnder([], key) == [] by { RowIndexIs([], key, 0); NoRows(key); }
    SpreadSameHits(h.fights[j], who, ev.level, fold, key);
    SpreadShape(h.fights[j], who, ev.level, fold);
    f := if j < |s.fights| then Some(s.fights[j]) else None;
  }

  lemma NoRows(key: string)
    ensures HitsUnder([], key) == []
  {}

  lemma TickHits(s: Tracker, now: int, g: Fight, key: string) returns (f: Option<Fight>)
    requires g in TickAll(s, now).fights
    ensures AccountsFor(s, f, g, key, [])
  {
    hide FightRefresh, HitsUnder, Kept;
    var r := RefreshFights(s, now);
    RetireIsFilter(r.fights, now, s.rules.retention);
    var k :| 0 <= k < |r.fights| && r.fights[k] == g;
    f := Some(s.fights[k]);
    RefreshSameHits(s.fights[k], now, s.rules.window, key);
  }

  /** One step adds to a row what it credits to that fight and attacker, and nothing else. */
  lemma StepHits(s: Tracker, op: Op, fold: Fold, g: Fight, key: string) returns (f: Option<Fight>)
    requires TrackerOk(s, fold) && g in Step(s, op, fold).fights
    ensures AccountsFor(s, f, g, key, HitCredited(s, op, g.id, key, fold))
  {
    hide HitsUnder, TickAll, TakeDamage, FightDie, TrackerOk, CreditedTo, Credited;
    var t := Step(s, op, fold);
    var j :| 0 <= j < |t.fights| && t.fights[j] == g;
    match op
    case Damage(ev) => f := DamageHits(s, ev, fold, j, key);
    case Tick(now) => f := TickHits(s, now, g, key);
    case End(victim, when) =>
      f := Some(s.fights[j]);
      DieSameHits(s.fights[j], when, key);
    case Clear => assert false;
    case _ => f := Some(s.fights[j]);
  }

  // -- every run -------------------------------------------------------------------------------------

  lemma RunOk(rules: Rules, ops: seq<Op>, fold: Fold)
    ensures TrackerOk(Run(Start(rules), ops, fold), fold)
  {
    RunSound(Start(rules), ops, fold);
  }

  lemma {:induction false} NoHitsBeforeOpening(rules: Rules, ops: seq<Op>, id: nat, key: string, fold: Fold)
    requires id >= Run(Start(rules), ops, fold).nextId
    ensures HitsCredited(Start(rules), ops, id, key, fold) == []
  {
    hide Credited, Struck, Landed, StruckAfter, Sound, TrackerOk, Step;
    if ops != [] {
      var before, last := ops[..|ops| - 1], ops[|ops| - 1];
      var s := Run(Start(rules), before, fold);
      RunOk(rules, before, fold);
      NextIdGrows(s, last, fold);
      NoHitsBeforeOpening(rules, before, id, key, fold);
    }
  }

  /** Fights get rising identities, and a step credits only to one it knows or opens. */
  lemma NextIdGrows(s: Tracker, op: Op, fold: Fold)
    requires TrackerOk(s, fold)
    ensures s.nextId <= Step(s, op, fold).nextId
    ensures op.Damage? && CreditedTo(s, op.ev, fold).Some? ==>
      CreditedTo(s, op.ev, fold).value < Step(s, op, fold).nextId
  {
    hide FightOk, Credited, Landed, Spread, FightHit, ActiveIndex;
    StepSound(s, op, fold);
    if op.Damage? && Credited(s, op.ev).Some? {
      TakeIsLandThenSpread(s, op.ev, fold);
      LandedShape(s, Credited(s, op.ev).value, op.ev, fold);
    }
  }

  lemma {:induction false} HitsAreTheCredits(rules: Rules, ops: seq<Op>, fold: Fold, g: Fight, key: string)
    requires g in Run(Start(rules), ops, fold).fights
    ensures HitsUnder(g.rows, key) == HitsCredited(Start(rules), ops, g.id, key, fold)
  {
    hide HitsUnder, HitCredited, TrackerOk, Sound, Step;
    if ops != [] {
      var before := ops[..|ops| - 1];
      var s := Run(Start(rules), before, fold);
      RunOk(rules, before, fold);
      var f := StepHits(s, ops[|ops| - 1], fold, g, key);
      if f.Some? { HitsAreTheCredits(rules, before, fold, f.value, key); }
      else { NoHitsBeforeOpening(rules, before, g.id, key, fold); }
    }
  }

  /** In every run, the hits on a row are exactly the events credited to that fight under that
      folded attacker, in order, and its total is what they add up to; an attacker without a
      row was credited none. */
  lemma RowLedger(rules: Rules, ops: seq<Op>, fold: Fold, g: Fight)
    requires g in Run(Start(rules), ops, fold).fights
    ensures forall row | row in g.rows ::
      var credits := HitsCredited(Start(rules), ops, g.id, row.key, fold);
      row.hits == credits && row.Total() == Sum(credits, 0, |credits|)
    ensures forall key | (forall row | row in g.rows :: row.key != key) ::
      HitsCredited(Start(rules), ops, g.id, key, fold) == []
  {
    hide HitsCredited, Run, FightOk;
    forall row | row in g.rows ensures row.hits == HitsCredited(Start(rules), ops, g.id, row.key, fold) {
      HitsAreTheCredits(rules, ops, fold, g, row.key);
      RunFightOk(rules, ops, fold, g);
      RowIsFound(g, row);
    }
    forall key | (forall row | row in g.rows :: row.key != key)
      ensures HitsCredited(Start(rules), ops, g.id, key, fold) == []
    {
      HitsAreTheCredits(rules, ops, fold, g, key);
      assert forall i | 0 <= i < |g.rows| :: g.rows[i] in g.rows;
    }
  }

  lemma RunFightOk(rules: Rules, ops: seq<Op>, fold: Fold, g: Fight)
    requires g in Run(Start(rules), ops, fold).fights
    ensures FightOk(g)
  {
    hide FightOk;
    RunSound(Start(rules), ops, fold);
  }

  lemma RowIsFound(g: Fight, row: Entity)
    requires FightOk(g) && row in g.rows
    ensures HitsUnder(g.rows, row.key) == row.hits
  {
    hide RowOk;
    var i :| 0 <= i < |g.rows| && g.rows[i] == row;
    RowIndexIs(g.rows, row.key, i);
  }
}
