/**
 Whose damage ends up where: the ledger of every fight, the spell-credit rule as a
 statement about the casts of a run, exact retirement, and the maximum behind "best".
 */
module FightLedger {
  import opened Options
  import opened BestWindow
  import opened FightValues
  import opened FightRuns

  // -- retirement ------------------------------------------------------------------------

  lemma RefreshKeepsStaleness(f: Fight, now: int, window: int, retention: int)
    ensures Kept(FightRefresh(f, now, window), now, retention) <==> Kept(f, now, retention)
  {
    var g := FightRefresh(f, now, window);
    assert forall i | 0 <= i < |f.rows| :: Recent(g.rows[i], now, retention) == Recent(f.rows[i], now, retention);
  }

  lemma TickRetires(s: Tracker, now: int, fold: Fold, i: nat)
    requires TrackerOk(s, fold) && i < |s.fights|
    ensures (forall g | g in Step(s, Tick(now), fold).fights :: g.id != s.fights[i].id) <==>
      Stale(s.fights[i], now, s.rules.retention)
  {
    assert s.fights[i].rows != [];
    hide FightOk, FightRefresh, Stale;
    var t, f := Step(s, Tick(now), fold), s.fights[i];
    var r := RefreshFights(s, now);
    RetireIsFilter(r.fights, now, s.rules.retention);
    RefreshKeepsStaleness(f, now, s.rules.window, s.rules.retention);
    assert forall k | 0 <= k < |r.fights| :: r.fights[k] == FightRefresh(s.fights[k], now, s.rules.window);
    forall k | 0 <= k < |r.fights| ensures r.fights[k].id == s.fights[k].id {
      RefreshIdentity(s.fights[k], now, s.rules.window);
    }
    assert r.fights[i] in r.fights;
    forall g | g in t.fights && g.id == f.id ensures g == r.fights[i] {
      var k :| 0 <= k < |r.fights| && r.fights[k] == g;
      assert s.fights[k].id == f.id;
    }
  }

  lemma RefreshIdentity(f: Fight, now: int, window: int)
    ensures FightRefresh(f, now, window).id == f.id
  {}

  /** No other step drops a fight. */
  lemma OthersKeepFights(s: Tracker, op: Op, fold: Fold, i: nat)
    requires TrackerOk(s, fold) && i < |s.fights| && !op.Clear? && !op.Tick?
    ensures i < |Step(s, op, fold).fights| && Step(s, op, fold).fights[i].id == s.fights[i].id
  {
    hide FightOk, IdsRise;
    if op.Damage? && Credited(s, op.ev).Some? {
      var who := Credited(s, op.ev).value;
      LandedShape(s, who, op.ev, fold);
      HitIdentity(Struck(s, op.ev, fold), fold(who), who, op.ev, s.rules.window);
    }
  }

  /** A fight leaves the meter only by clearing it, or at a tick that finds the whole
      group quiet for longer than the retention, its start included. */
  lemma LeavesOnlyWhenStale(s: Tracker, op: Op, fold: Fold, f: Fight)
    requires TrackerOk(s, fold) && f in s.fights
    ensures (forall g | g in Step(s, op, fold).fights :: g.id != f.id) <==>
      op.Clear? || (op.Tick? && Stale(f, op.now, s.rules.retention))
  {
    var i :| 0 <= i < |s.fights| && s.fights[i] == f;
    var t := Step(s, op, fold);
    if op.Tick? {
      hide Step, TrackerOk, Stale;
      TickRetires(s, op.now, fold, i);
    } else if !op.Clear? {
      hide Step, TrackerOk;
      OthersKeepFights(s, op, fold, i);
      assert t.fights[i] in t.fights;
    }
  }

  lemma HitIdentity(f: Fight, key: string, who: string, ev: Event, window: int)
    ensures FightHit(f, key, who, ev.at, ev.damage, ev.level, window).id == f.id
  {}

  // -- the ledger ------------------------------------------------------------------------

  function RowsTotal(rows: seq<Entity>): int {
    if rows == [] then 0 else RowsTotal(rows[..|rows| - 1]) + rows[|rows| - 1].Total()
  }

  lemma {:induction false} RowsTotalUpdate(rows: seq<Entity>, i: nat, row: Entity)
    requires i < |rows|
    ensures RowsTotal(rows[i := row]) == RowsTotal(rows) - rows[i].Total() + row.Total()
  {
    var n := |rows| - 1;
    if i < n {
      assert rows[i := row][..n] == rows[..n][i := row];
      RowsTotalUpdate(rows[..n], i, row);
    } else {
      assert rows[i := row][..n] == rows[..n];
    }
  }

  /** Clocks, windows and levels do not touch the total. */
  lemma {:induction false} SameTotal(xs: seq<Entity>, ys: seq<Entity>)
    requires |xs| == |ys| && forall i | 0 <= i < |xs| :: xs[i].hits == ys[i].hits
    ensures RowsTotal(xs) == RowsTotal(ys)
  {
    if xs != [] { SameTotal(xs[..|xs| - 1], ys[..|ys| - 1]); }
  }

  lemma HitAddsDamage(f: Fight, key: string, who: string, ev: Event, window: int)
    ensures RowsTotal(FightHit(f, key, who, ev.at, ev.damage, ev.level, window).rows) == RowsTotal(f.rows) + ev.damage
  {
    var i := RowIndex(f.rows, key);
    var row := if i < |f.rows| then FollowWindow(f.rows[i], window) else NewEntity(key, who, ev.at, window);
    var struck := RowHit(row, ev.at, ev.damage, ev.level);
    assert struck.hits == row.hits + [Hit(ev.at, ev.damage)];
    SumLocal(row.hits, struck.hits, 0, |row.hits|);
    assert struck.Total() == row.Total() + ev.damage;
    if i < |f.rows| {
      RowsTotalUpdate(f.rows, i, struck);
    } else {
      assert (f.rows + [struck])[..|f.rows|] == f.rows;
    }
  }

  /** The fight an event is credited to, or None when the event is dropped. */
  ghost function CreditedTo(s: Tracker, ev: Event, fold: Fold): Option<nat> {
    if Credited(s, ev).None? then None else Some(Struck(s, ev, fold).id)
  }

  ghost function Credit(s: Tracker, op: Op, id: nat, fold: Fold): int {
    if op.Damage? && CreditedTo(s, op.ev, fold) == Some(id) then op.ev.damage else 0
  }

  /** Everything a run credited to one fight. */
  ghost function Credits(s: Tracker, ops: seq<Op>, id: nat, fold: Fold): int {
    if ops == [] then 0
    else
      var before := ops[..|ops| - 1];
      Credits(s, before, id, fold) + Credit(Run(s, before, fold), ops[|ops| - 1], id, fold)
  }

  /** `g` is the fight `f` of `s`, or one opened since, grown by `credit`. */
  ghost predicate Accounts(s: Tracker, f: Option<Fight>, g: Fight, credit: int) {
    match f
    case None => g.id == s.nextId && RowsTotal(g.rows) == credit
    case Some(was) => was in s.fights && was.id == g.id && RowsTotal(g.rows) == RowsTotal(was.rows) + credit
  }

  /** One step moves a fight's total by what it credits to that fight. */
  lemma StepLedger(s: Tracker, op: Op, fold: Fold, g: Fight) returns (f: Option<Fight>)
    requires TrackerOk(s, fold) && g in Step(s, op, fold).fights
    ensures Accounts(s, f, g, Credit(s, op, g.id, fold))
  {
    var t := Step(s, op, fold);
    var j :| 0 <= j < |t.fights| && t.fights[j] == g;
    match op
    case Damage(ev) => f := DamageLedger(s, ev, fold, j);
    case Tick(now) =>
      var r := RefreshFights(s, now);
      RetireIsFilter(r.fights, now, s.rules.retention);
      var k :| 0 <= k < |r.fights| && r.fights[k] == g;
      f := Some(s.fights[k]);
      SameTotal(s.fights[k].rows, g.rows);
    case Clear => assert false;
    case _ =>
      f := Some(s.fights[j]);
      SameTotal(s.fights[j].rows, g.rows);
  }

  lemma DamageLedger(s: Tracker, ev: Event, fold: Fold, j: nat) returns (f: Option<Fight>)
    requires TrackerOk(s, fold) && j < |TakeDamage(s, ev, fold).fights|
    ensures var g := TakeDamage(s, ev, fold).fights[j]; Accounts(s, f, g, Credit(s, Damage(ev), g.id, fold))
  {
    hide FightHit, ActiveIndex, Landed, Credited, Spread;
    var who := Credited(s, ev);
    if who.None? {
      f := Some(s.fights[j]);
    } else {
      var h, struck := Landed(s, who.value, ev, fold), Struck(s, ev, fold);
      assert TakeDamage(s, ev, fold) == SpreadLevel(h, who.value, ev.level, fold) by {
        TakeIsLandThenSpread(s, ev, fold);
      }
      LandedShape(s, who.value, ev, fold);
      HitAddsDamage(struck, fold(who.value), who.value, ev, s.rules.window);
      HitIdentity(struck, fold(who.value), who.value, ev, s.rules.window);
      SpreadSameTotal(h.fights[j], who.value, ev.level, fold);
      f := if j < |s.fights| then Some(s.fights[j]) else None;
    }
  }

  lemma TakeIsLandThenSpread(s: Tracker, ev: Event, fold: Fold)
    requires Credited(s, ev).Some?
    ensures var who := Credited(s, ev).value;
      TakeDamage(s, ev, fold) == SpreadLevel(Landed(s, who, ev, fold), who, ev.level, fold)
  {}

  lemma SpreadSameTotal(f: Fight, who: string, guess: Option<int>, fold: Fold)
    ensures var g := Spread(f, who, guess, fold); g.id == f.id && RowsTotal(g.rows) == RowsTotal(f.rows)
  {
    SameTotal(f.rows, Spread(f, who, guess, fold).rows);
  }

  lemma {:induction false} NoCreditBeforeOpening(rules: Rules, ops: seq<Op>, id: nat, fold: Fold)
    requires id >= Run(Start(rules), ops, fold).nextId
    ensures Credits(Start(rules), ops, id, fold) == 0
  {
    if ops != [] {
      var before, last := ops[..|ops| - 1], ops[|ops| - 1];
      var s := Run(Start(rules), before, fold);
      RunSound(Start(rules), before, fold);
      StepSound(s, last, fold);
      NoCreditBeforeOpening(rules, before, id, fold);
      if last.Damage? && Credited(s, last.ev).Some? { LandedShape(s, Credited(s, last.ev).value, last.ev, fold); }
    }
  }

  /** In every run, a fight's total is the sum of the events credited to it. */
  lemma {:induction false} Ledger(rules: Rules, ops: seq<Op>, fold: Fold, g: Fight)
    requires g in Run(Start(rules), ops, fold).fights
    ensures RowsTotal(g.rows) == Credits(Start(rules), ops, g.id, fold)
  {
    if ops != [] {
      var before := ops[..|ops| - 1];
      var s := Run(Start(rules), before, fold);
      RunSound(Start(rules), before, fold);
      var f := StepLedger(s, ops[|ops| - 1], fold, g);
      if f.Some? { Ledger(rules, before, fold, f.value); } else { NoCreditBeforeOpening(rules, before, g.id, fold); }
    }
  }

  // -- spell credit ----------------------------------------------------------------------

  /** The cast at `k` was neither interrupted nor cleared away since. */
  ghost predicate Standing(ops: seq<Op>, k: int) {
    && 0 <= k < |ops| && ops[k].Cast?
    && forall j | k < j < |ops| :: !ops[j].Cancel? && !ops[j].Clear?
  }

  function LandsAt(op: Op): int
    requires op.Cast?
  {
    op.when + if op.castTime > 0 then op.castTime else 0
  }

  lemma {:induction false} ArmedByACast(rules: Rules, ops: seq<Op>, fold: Fold, at: int)
    ensures var s := Run(Start(rules), ops, fold);
      (s.landed.Some? && at <= s.landed.value) <==> exists k :: Standing(ops, k) && at <= LandsAt(ops[k])
  {
    if ops != [] {
      var n := |ops| - 1;
      var before, last, s := ops[..n], ops[n], Run(Start(rules), ops[..n], fold);
      ArmedByACast(rules, before, fold, at);
      LandedAfter(s, last, fold);
      hide Step;
      if last.Cancel? || last.Clear? {
        assert forall k :: Standing(ops, k) ==> k < n;
      } else {
        assert forall k | 0 <= k < n :: ops[k] == before[k];
        assert forall k | 0 <= k < n :: Standing(ops, k) <==> Standing(before, k) by { StandsOn(ops); }
        assert last.Cast? <==> Standing(ops, n);
        if exists k :: Standing(before, k) && at <= LandsAt(before[k]) {
          var k :| Standing(before, k) && at <= LandsAt(before[k]);
          assert Standing(ops, k) && at <= LandsAt(ops[k]);
        }
        if last.Cast? && at <= LandsAt(last) { assert Standing(ops, n) && at <= LandsAt(ops[n]); }
      }
    }
  }

  lemma StandsOn(ops: seq<Op>)
    requires ops != [] && !ops[|ops| - 1].Cancel? && !ops[|ops| - 1].Clear?
    ensures forall k | 0 <= k < |ops| - 1 :: Standing(ops, k) <==> Standing(ops[..|ops| - 1], k)
  {}

  /** What a step does to the time up to which a cast of yours may still land. */
  lemma LandedAfter(s: Tracker, op: Op, fold: Fold)
    ensures Step(s, op, fold).landed ==
      if op.Cancel? || op.Clear? then None
      else if op.Cast? && (s.landed.None? || LandsAt(op) > s.landed.value) then Some(LandsAt(op)) else s.landed
  {
    if op.Damage? { assert TakeDamage(s, op.ev, fold).landed == s.landed; }
  }

  /** A non-melee "You" line counts as yours exactly when some standing cast's landing,
      plus the credit window in force now, has not passed. */
  lemma YoursIffACastCovers(rules: Rules, ops: seq<Op>, fold: Fold, ev: Event)
    requires !ev.melee && ev.attacker == YOU && Run(Start(rules), ops, fold).rules.sources != Melee
    ensures var s := Run(Start(rules), ops, fold);
      Attribute(s, ev) == Some(YOU) <==>
        exists k :: Standing(ops, k) && ev.at <= LandsAt(ops[k]) + s.rules.credit
  {
    var s := Run(Start(rules), ops, fold);
    ArmedByACast(rules, ops, fold, ev.at - s.rules.credit);
    if exists k :: Standing(ops, k) && ev.at - s.rules.credit <= LandsAt(ops[k]) {
      var k :| Standing(ops, k) && ev.at - s.rules.credit <= LandsAt(ops[k]);
      assert Standing(ops, k) && ev.at <= LandsAt(ops[k]) + s.rules.credit;
    }
  }

  // -- what "best" and "trailing" mean ---------------------------------------------------

  /** Log order: time never runs backwards over the damage lines, a miss counts zero and
      nothing counts less, and the averaging window is a positive span. */
  ghost predicate LogOrder(ops: seq<Op>) {
    && (forall i, j | 0 <= i <= j < |ops| && ops[i].Damage? && ops[j].Damage? :: ops[i].ev.at <= ops[j].ev.at)
    && (forall i | 0 <= i < |ops| && ops[i].Damage? :: ops[i].ev.damage >= 0)
    && (forall i | 0 <= i < |ops| && ops[i].Configure? :: ops[i].rules.window > 0)
  }

  ghost predicate OrderlyRow(row: Entity, latest: int) {
    && TimeOrdered(row.hits) && NonNegative(row.hits) && row.window > 0
    && forall i | 0 <= i < |row.hits| :: row.hits[i].at <= latest
  }

  ghost predicate OrderlyFight(f: Fight, latest: int) {
    forall i | 0 <= i < |f.rows| :: OrderlyRow(f.rows[i], latest)
  }

  ghost predicate Orderly(s: Tracker, latest: int) {
    s.rules.window > 0 && forall i | 0 <= i < |s.fights| :: OrderlyFight(s.fights[i], latest)
  }

  lemma HitOrderly(f: Fight, key: string, who: string, ev: Event, window: int)
    requires OrderlyFight(f, ev.at) && window > 0 && ev.damage >= 0
    ensures OrderlyFight(FightHit(f, key, who, ev.at, ev.damage, ev.level, window), ev.at)
  {
    var i, g := RowIndex(f.rows, key), FightHit(f, key, who, ev.at, ev.damage, ev.level, window);
    var row := if i < |f.rows| then FollowWindow(f.rows[i], window) else NewEntity(key, who, ev.at, window);
    OrderlyAppend(row, RowHit(row, ev.at, ev.damage, ev.level), ev);
    hide OrderlyRow, RowHit;
    forall k | 0 <= k < |g.rows| ensures OrderlyRow(g.rows[k], ev.at) {}
  }

  lemma OrderlyAppend(row: Entity, struck: Entity, ev: Event)
    requires OrderlyRow(row, ev.at) && ev.damage >= 0 && struck == RowHit(row, ev.at, ev.damage, ev.level)
    ensures OrderlyRow(struck, ev.at)
  {
    assert struck.hits == row.hits + [Hit(ev.at, ev.damage)] && struck.window == row.window;
  }

  lemma StepOrderly(s: Tracker, op: Op, fold: Fold, latest: int)
    requires Orderly(s, latest) && (op.Configure? ==> op.rules.window > 0)
    requires op.Damage? ==> op.ev.at == latest && op.ev.damage >= 0
    ensures Orderly(Step(s, op, fold), latest)
  {
    match op
    case Damage(ev) => DamageOrderly(s, ev, fold);
    case Tick(now) => TickOrderly(s, now, latest);
    case End(victim, when) => EndOrderly(s, victim, when, fold, latest);
    case _ => assert Step(s, op, fold).fights == s.fights || Step(s, op, fold).fights == [];
  }

  lemma DamageOrderly(s: Tracker, ev: Event, fold: Fold)
    requires Orderly(s, ev.at) && ev.damage >= 0
    ensures Orderly(TakeDamage(s, ev, fold), ev.at)
  {
    var who := Credited(s, ev);
    if who.Some? {
      TakeIsLandThenSpread(s, ev, fold);
      LandOrderly(s, who.value, ev, fold);
      SpreadOrderly(Landed(s, who.value, ev, fold), who.value, ev, fold);
    }
  }

  lemma LandOrderly(s: Tracker, who: string, ev: Event, fold: Fold)
    requires Orderly(s, ev.at) && ev.damage >= 0 && Credited(s, ev) == Some(who)
    ensures Orderly(Landed(s, who, ev, fold), ev.at)
  {
    LandedShape(s, who, ev, fold);
    HitOrderly(Struck(s, ev, fold), fold(who), who, ev, s.rules.window);
  }

  lemma SpreadOrderly(s: Tracker, who: string, ev: Event, fold: Fold)
    requires Orderly(s, ev.at)
    ensures Orderly(SpreadLevel(s, who, ev.level, fold), ev.at)
  {
    forall i | 0 <= i < |s.fights| ensures OrderlyFight(Spread(s.fights[i], who, ev.level, fold), ev.at) {
      assert OrderlyFight(s.fights[i], ev.at);
    }
    hide OrderlyFight, Spread;
  }

  lemma TickOrderly(s: Tracker, now: int, latest: int)
    requires Orderly(s, latest)
    ensures Orderly(TickAll(s, now), latest)
  {
    var r := RefreshFights(s, now);
    RetireIsFilter(r.fights, now, s.rules.retention);
    forall k | 0 <= k < |s.fights| ensures OrderlyFight(FightRefresh(s.fights[k], now, s.rules.window), latest) {
      RefreshOrderly(s.fights[k], now, s.rules.window, latest);
    }
    hide OrderlyFight, FightRefresh, Kept;
    assert forall k | 0 <= k < |r.fights| :: r.fights[k] == FightRefresh(s.fights[k], now, s.rules.window);
    var t := TickAll(s, now);
    forall i | 0 <= i < |t.fights| ensures OrderlyFight(t.fights[i], latest) {
      assert t.fights[i] in r.fights;
    }
  }

  lemma RefreshOrderly(f: Fight, now: int, window: int, latest: int)
    requires OrderlyFight(f, latest) && window > 0
    ensures OrderlyFight(FightRefresh(f, now, window), latest)
  {}

  lemma EndOrderly(s: Tracker, victim: string, when: int, fold: Fold, latest: int)
    requires Orderly(s, latest)
    ensures Orderly(EndFights(s, victim, when, fold), latest)
  {
    forall j | 0 <= j < |s.fights| ensures OrderlyFight(EndFights(s, victim, when, fold).fights[j], latest) {
      assert OrderlyFight(s.fights[j], latest);
    }
  }

  lemma {:induction false} RunOrderly(rules: Rules, ops: seq<Op>, fold: Fold, latest: int)
    requires rules.window > 0 && LogOrder(ops)
    requires forall i | 0 <= i < |ops| && ops[i].Damage? :: ops[i].ev.at <= latest
    ensures Orderly(Run(Start(rules), ops, fold), latest)
  {
    if ops != [] {
      var before, last := ops[..|ops| - 1], ops[|ops| - 1];
      var now := if last.Damage? then last.ev.at else latest;
      RunOrderly(rules, before, fold, now);
      StepOrderly(Run(Start(rules), before, fold), last, fold, now);
      Later(Run(Start(rules), ops, fold), now, latest);
    }
  }

  lemma Later(s: Tracker, now: int, latest: int)
    requires Orderly(s, now) && now <= latest
    ensures Orderly(s, latest)
  {
    forall i | 0 <= i < |s.fights| ensures OrderlyFight(s.fights[i], latest) {
      forall k | 0 <= k < |s.fights[i].rows| ensures OrderlyRow(s.fights[i].rows[k], latest) {
        assert OrderlyRow(s.fights[i].rows[k], now);
      }
    }
  }

  /** In every run in log order, each row's best is the maximum damage any of its own
      stretches inside one window adds up to, under the window the row follows, or froze with. */
  lemma BestIsTheMaximum(rules: Rules, ops: seq<Op>, fold: Fold, f: Fight, row: Entity)
    requires rules.window > 0 && LogOrder(ops)
    requires f in Run(Start(rules), ops, fold).fights && row in f.rows
    ensures IsBestWindow(row.hits, row.window, row.best)
  {
    var latest := LatestDamage(ops);
    RunOrderly(rules, ops, fold, latest);
    RunSound(Start(rules), ops, fold);
    assert OrderlyRow(row, latest) && RowOk(row, f.death);
    BestIsMaximum(row.hits, row.window);
  }

  lemma {:induction false} LatestDamage(ops: seq<Op>) returns (latest: int)
    ensures forall i | 0 <= i < |ops| && ops[i].Damage? :: ops[i].ev.at <= latest
  {
    if ops == [] {
      latest := 0;
    } else {
      var before := LatestDamage(ops[..|ops| - 1]);
      var last := ops[|ops| - 1];
      latest := if last.Damage? && last.ev.at > before then last.ev.at else before;
      assert forall i | 0 <= i < |ops| - 1 :: ops[i] == ops[..|ops| - 1][i];
    }
  }

  /** Right after a tick, a live row's trailing sum is all of its damage since the cutoff. */
  lemma TrailingAfterTick(rules: Rules, ops: seq<Op>, fold: Fold, now: int, f: Fight, row: Entity)
    requires rules.window > 0 && LogOrder(ops)
    requires f in Run(Start(rules), ops + [Tick(now)], fold).fights && row in f.rows && row.death.None?
    ensures row.trailing == Since(row.hits, now - row.window)
  {
    assert (ops + [Tick(now)])[..|ops|] == ops;
    var s := Run(Start(rules), ops, fold);
    var latest := LatestDamage(ops);
    RunOrderly(rules, ops, fold, latest);
    RunSound(Start(rules), ops, fold);
    StepOrderly(s, Tick(now), fold, latest);
    StepSound(s, Tick(now), fold);
    TickMeasures(s, now, fold, f, row);
    hide OrderlyFight, OrderlyRow, Step, Run, TickAll;
    assert OrderlyFight(f, latest);
    assert TimeOrdered(row.hits) by { RowIsOrdered(f, latest, row); }
    TrailingIsSince(row.hits, now - row.window);
  }

  lemma RowIsOrdered(f: Fight, latest: int, row: Entity)
    requires OrderlyFight(f, latest) && row in f.rows
    ensures TimeOrdered(row.hits)
  {
    var i :| 0 <= i < |f.rows| && f.rows[i] == row;
    assert OrderlyRow(f.rows[i], latest);
  }

  lemma TickMeasures(s: Tracker, now: int, fold: Fold, f: Fight, row: Entity)
    requires TrackerOk(s, fold) && f in TickAll(s, now).fights && row in f.rows && row.death.None?
    ensures row.trailing == Trailing(row.hits, now - row.window)
  {
    var r := RefreshFights(s, now);
    RetireIsFilter(r.fights, now, s.rules.retention);
    hide Retire, Kept, Refresh;
    var k :| 0 <= k < |r.fights| && r.fights[k] == f;
    var i :| 0 <= i < |f.rows| && f.rows[i] == row;
    assert RowOk(s.fights[k].rows[i], s.fights[k].death);
    RefreshMeasures(s.fights[k].rows[i], row, now, s.rules.window);
  }

  lemma RefreshMeasures(was: Entity, row: Entity, now: int, window: int)
    requires was.hits != [] && row == Refresh(was, now, Some(window)) && row.death.None?
    ensures row.trailing == Trailing(row.hits, now - row.window)
  {}
}
