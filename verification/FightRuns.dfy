/**
 What holds of the tracker in every run: the fight lifecycle, frozen dead groups, whole
 groups retired, the damage ledger, the spell-credit rule and the meaning of "best".
 */
module FightRuns {
  import opened Options
  import opened BestWindow
  import opened FightValues

  datatype Op =
    | Damage(ev: Event)
    | End(victim: string, when: int)
    | Tick(now: int)
    | Clear
    | Cast(when: int, castTime: int)
    | Cancel
    | Configure(rules: Rules)

  ghost function Step(s: Tracker, op: Op, fold: Fold): Tracker {
    match op
    case Damage(ev) => TakeDamage(s, ev, fold)
    case End(victim, when) => EndFights(s, victim, when, fold)
    case Tick(now) => TickAll(s, now)
    case Clear => ClearAll(s)
    case Cast(when, castTime) => NoteCast(s, when, castTime)
    case Cancel => CancelCast(s)
    case Configure(rules) => s.(rules := rules)
  }

  ghost function Run(s: Tracker, ops: seq<Op>, fold: Fold): Tracker {
    if ops == [] then s else Step(Run(s, ops[..|ops| - 1], fold), ops[|ops| - 1], fold)
  }

  function Start(rules: Rules): Tracker { Tracker([], None, rules, 0) }

  // -- the lifecycle invariant -----------------------------------------------------------

  /** A row dies with its fight, and its best window is the sweep of its own hits. */
  ghost predicate RowOk(row: Entity, death: Option<int>) {
    && row.hits != []
    && row.death == death
    && row.best == Best(row.hits, |row.hits|, row.window)
  }

  ghost predicate FightOk(f: Fight) {
    && f.rows != []
    && (forall i | 0 <= i < |f.rows| :: RowOk(f.rows[i], f.death))
    && (forall i, j | 0 <= i < j < |f.rows| :: f.rows[i].key != f.rows[j].key)
  }

  ghost predicate TrackerOk(s: Tracker, fold: Fold) {
    && (forall i | 0 <= i < |s.fights| :: FightOk(s.fights[i]) && s.fights[i].id < s.nextId)
    && IdsRise(s.fights)
    && (forall i, j | 0 <= i < j < |s.fights| && s.fights[i].death.None? && s.fights[j].death.None? ::
          fold(s.fights[i].target) != fold(s.fights[j].target))
  }

  ghost predicate SameButLevels(xs: seq<Entity>, ys: seq<Entity>) {
    |xs| == |ys| && forall i | 0 <= i < |xs| :: ys[i] == xs[i].(level := ys[i].level)
  }

  /** `f` became `g`: no attacker left, no hit was forgotten, and nothing but a level
      guess can have moved if the group was already dead. */
  ghost predicate Became(f: Fight, g: Fight) {
    && f.id == g.id && f.target == g.target && f.start == g.start
    && |f.rows| <= |g.rows|
    && (forall i | 0 <= i < |f.rows| :: f.rows[i].key == g.rows[i].key
          && f.rows[i].attacker == g.rows[i].attacker && f.rows[i].hits <= g.rows[i].hits)
    && (f.death.Some? ==> g.death == f.death && SameButLevels(f.rows, g.rows))
  }

  /** Every fight of `t` is an old fight of `s` that became it, or was opened since. */
  ghost predicate Evolved(s: Tracker, t: Tracker) {
    && s.nextId <= t.nextId
    && forall j | 0 <= j < |t.fights| ::
         s.nextId <= t.fights[j].id || exists i | 0 <= i < |s.fights| :: Became(s.fights[i], t.fights[j])
  }

  lemma RefreshKeeps(f: Fight, now: int, window: int)
    requires FightOk(f)
    ensures var g := FightRefresh(f, now, window);
      FightOk(g) && Became(f, g) && g.death == f.death && g.id == f.id && g.target == f.target
  {}

  lemma DieKeeps(f: Fight, when: int)
    requires FightOk(f) && f.death.None?
    ensures var g := FightDie(f, when);
      FightOk(g) && Became(f, g) && g.death == Some(when) && g.id == f.id && g.target == f.target
  {}

  lemma SpreadKeeps(f: Fight, who: string, guess: Option<int>, fold: Fold)
    requires FightOk(f)
    ensures var g := Spread(f, who, guess, fold); FightOk(g) && Became(f, g) && g.death == f.death
  {}

  lemma RowHitKeeps(row: Entity, at: int, damage: int, guess: Option<int>)
    requires row.death.None?
    ensures var r := RowHit(row, at, damage, guess);
      && RowOk(r, None) && r.key == row.key && r.attacker == row.attacker
      && r.hits == row.hits + [Hit(at, damage)]
  {}

  /** The rows with `row` at `i`, over the one there or after the last. */
  function WithRow(rows: seq<Entity>, i: nat, row: Entity): seq<Entity>
    requires i <= |rows|
  {
    if i < |rows| then rows[i := row] else rows + [row]
  }

  lemma WithRowKeeps(f: Fight, i: nat, row: Entity)
    requires f.death.None? && (f.rows == [] || FightOk(f)) && i <= |f.rows| && RowOk(row, None)
    requires forall j | 0 <= j < |f.rows| && j != i :: f.rows[j].key != row.key
    requires i < |f.rows| ==> f.rows[i].key == row.key
    requires i < |f.rows| ==> f.rows[i].attacker == row.attacker && f.rows[i].hits <= row.hits
    ensures var g := f.(rows := WithRow(f.rows, i, row));
      FightOk(g) && Became(f, g) && g.death.None?
  {
    hide RowOk;
  }

  /** The row a hit is about to strike, following the window. */
  ghost function RowFor(f: Fight, key: string, who: string, at: int, window: int): Entity {
    var i := RowIndex(f.rows, key);
    if i < |f.rows| then FollowWindow(f.rows[i], window) else NewEntity(key, who, at, window)
  }

  lemma HitIsWithRow(f: Fight, key: string, who: string, at: int, damage: int, guess: Option<int>, window: int)
    ensures FightHit(f, key, who, at, damage, guess, window) ==
      f.(rows := WithRow(f.rows, RowIndex(f.rows, key), RowHit(RowFor(f, key, who, at, window), at, damage, guess)))
  {
    hide RowIndex, RowHit, FollowWindow, NewEntity;
  }

  lemma HitKeeps(f: Fight, key: string, who: string, at: int, damage: int, guess: Option<int>, window: int)
    requires f.death.None? && (f.rows == [] || FightOk(f))
    ensures var g := FightHit(f, key, who, at, damage, guess, window); FightOk(g) && Became(f, g) && g.death.None?
  {
    HitIsWithRow(f, key, who, at, damage, guess, window);
    var i, row := RowIndex(f.rows, key), RowFor(f, key, who, at, window);
    RowForIs(f, key, who, at, window);
    RowHitKeeps(row, at, damage, guess);
    assert forall j | 0 <= j < |f.rows| && j != i :: f.rows[j].key != key by { OneRowAKey(f, key); }
    hide FightHit, RowHit, RowFor, RowIndex, FightOk, Became, WithRow, RowOk;
    WithRowKeeps(f, i, RowHit(row, at, damage, guess));
  }

  lemma OneRowAKey(f: Fight, key: string)
    requires f.rows == [] || FightOk(f)
    ensures forall j | 0 <= j < |f.rows| && j != RowIndex(f.rows, key) :: f.rows[j].key != key
  {
    hide RowOk;
    var i := RowIndex(f.rows, key);
    assert i < |f.rows| ==> f.rows[i].key == key;
  }

  lemma RowForIs(f: Fight, key: string, who: string, at: int, window: int)
    requires f.death.None? && (f.rows == [] || FightOk(f))
    ensures var i, row := RowIndex(f.rows, key), RowFor(f, key, who, at, window);
      && row.key == key && row.death.None?
      && (i < |f.rows| ==> row.attacker == f.rows[i].attacker && row.hits == f.rows[i].hits)
      && (i == |f.rows| ==> row.hits == [])
  {
    hide RowIndex;
    var i := RowIndex(f.rows, key);
    if i < |f.rows| { assert RowOk(f.rows[i], None); }
  }

  // -- every step -----------------------------------------------------------------------

  ghost predicate Sound(s: Tracker, t: Tracker, fold: Fold) {
    TrackerOk(t, fold) && Evolved(s, t)
  }

  lemma RefreshSound(s: Tracker, now: int, fold: Fold)
    requires TrackerOk(s, fold)
    ensures Sound(s, RefreshFights(s, now), fold)
  {
    hide FightOk, Became, FightRefresh;
    var r := RefreshFights(s, now);
    forall i | 0 <= i < |s.fights|
      ensures FightOk(r.fights[i]) && Became(s.fights[i], r.fights[i])
      ensures r.fights[i].death == s.fights[i].death && r.fights[i].id == s.fights[i].id &&
        r.fights[i].target == s.fights[i].target
    {
      RefreshKeeps(s.fights[i], now, s.rules.window);
    }
  }

  lemma RetireSound(s: Tracker, now: int, fold: Fold)
    requires TrackerOk(s, fold)
    ensures Sound(s, s.(fights := Retire(s.fights, now, s.rules.retention)), fold)
  {
    hide FightOk, Became, Kept, Retire;
    var kept := Retire(s.fights, now, s.rules.retention);
    RetireIsFilter(s.fights, now, s.rules.retention);
    RetireRises(s.fights, now, s.rules.retention);
    forall j | 0 <= j < |kept|
      ensures exists i | 0 <= i < |s.fights| :: kept[j] == s.fights[i] && Became(s.fights[i], kept[j])
    {
      assert kept[j] in s.fights;
      var i :| 0 <= i < |s.fights| && kept[j] == s.fights[i];
      BecameReflexive(s.fights[i]);
    }
  }

  lemma TickSound(s: Tracker, now: int, fold: Fold)
    requires TrackerOk(s, fold)
    ensures Sound(s, TickAll(s, now), fold)
  {
    hide TrackerOk, Evolved;
    RefreshSound(s, now, fold);
    RetireSound(RefreshFights(s, now), now, fold);
    EvolvedTransitive(s, RefreshFights(s, now), TickAll(s, now));
  }

  lemma EndSound(s: Tracker, victim: string, when: int, fold: Fold)
    requires TrackerOk(s, fold)
    ensures Sound(s, EndFights(s, victim, when, fold), fold)
  {
    hide FightOk, Became, FightDie;
    var t := EndFights(s, victim, when, fold);
    forall i | 0 <= i < |s.fights|
      ensures FightOk(t.fights[i]) && Became(s.fights[i], t.fights[i])
      ensures t.fights[i].death.None? ==> s.fights[i].death.None?
      ensures t.fights[i].id == s.fights[i].id && t.fights[i].target == s.fights[i].target
    {
      BecameReflexive(s.fights[i]);
      if s.fights[i].death.None? { DieKeeps(s.fights[i], when); }
    }
  }

  lemma BecameTransitive(f: Fight, g: Fight, h: Fight)
    requires Became(f, g) && Became(g, h)
    ensures Became(f, h)
  {}

  lemma EvolvedTransitive(s: Tracker, t: Tracker, u: Tracker)
    requires Evolved(s, t) && Evolved(t, u)
    ensures Evolved(s, u)
  {
    forall k | 0 <= k < |u.fights| && u.fights[k].id < s.nextId
      ensures exists i | 0 <= i < |s.fights| :: Became(s.fights[i], u.fights[k])
    {
      var j :| 0 <= j < |t.fights| && Became(t.fights[j], u.fights[k]);
      var i :| 0 <= i < |s.fights| && Became(s.fights[i], t.fights[j]);
      BecameTransitive(s.fights[i], t.fights[j], u.fights[k]);
    }
  }

  lemma SpreadSound(s: Tracker, who: string, guess: Option<int>, fold: Fold)
    requires TrackerOk(s, fold)
    ensures Sound(s, SpreadLevel(s, who, guess, fold), fold)
  {
    var t := SpreadLevel(s, who, guess, fold);
    forall i | 0 <= i < |s.fights|
      ensures FightOk(t.fights[i]) && Became(s.fights[i], t.fights[i]) && t.fights[i].death == s.fights[i].death
    {
      SpreadKeeps(s.fights[i], who, guess, fold);
    }
  }

  /** The state after the hit landed, before the level guess is spread. */
  ghost function Landed(s: Tracker, who: string, ev: Event, fold: Fold): Tracker {
    var i := ActiveIndex(s.fights, ev.target, fold);
    LandAt(if i == |s.fights| then OpenFight(s, ev.target, ev.at) else s, i, who, ev, fold)
  }

  /** The fight the hit lands on: the live one, or a newly opened one. */
  ghost function Struck(s: Tracker, ev: Event, fold: Fold): Fight {
    var i := ActiveIndex(s.fights, ev.target, fold);
    if i == |s.fights| then Fight(s.nextId, ev.target, ev.at, None, []) else s.fights[i]
  }

  ghost function StruckAfter(s: Tracker, who: string, ev: Event, fold: Fold): Fight {
    FightHit(Struck(s, ev, fold), fold(who), who, ev.at, ev.damage, ev.level, s.rules.window)
  }

  lemma LandedShape(s: Tracker, who: string, ev: Event, fold: Fold)
    ensures var i := ActiveIndex(s.fights, ev.target, fold);
      var t, g := Landed(s, who, ev, fold), StruckAfter(s, who, ev, fold);
      && t.rules == s.rules && t.landed == s.landed
      && t.nextId == (if i == |s.fights| then s.nextId + 1 else s.nextId)
      && t.fights == (if i == |s.fights| then s.fights + [g] else s.fights[i := g])
  {
    hide FightHit, ActiveIndex;
    var i := ActiveIndex(s.fights, ev.target, fold);
    if i == |s.fights| {
      var o := OpenFight(s, ev.target, ev.at);
      assert o.fights[i := StruckAfter(s, who, ev, fold)] == s.fights + [StruckAfter(s, who, ev, fold)];
    }
  }

  lemma LandedSound(s: Tracker, who: string, ev: Event, fold: Fold)
    requires TrackerOk(s, fold)
    ensures Sound(s, Landed(s, who, ev, fold), fold)
  {
    hide FightHit, FightOk, Became, ActiveIndex, Landed;
    var i, t := ActiveIndex(s.fights, ev.target, fold), Landed(s, who, ev, fold);
    var f := Struck(s, ev, fold);
    LandedShape(s, who, ev, fold);
    HitKeeps(f, fold(who), who, ev.at, ev.damage, ev.level, s.rules.window);
    SameTarget(f, t.fights[i]);
    forall j | 0 <= j < |s.fights| && j != i ensures Became(s.fights[j], t.fights[j]) {
      BecameReflexive(s.fights[j]);
    }
  }

  lemma BecameReflexive(f: Fight)
    ensures Became(f, f)
  {}

  lemma SameTarget(f: Fight, g: Fight)
    requires Became(f, g)
    ensures f.id == g.id && f.target == g.target
  {}

  lemma DamageSound(s: Tracker, ev: Event, fold: Fold)
    requires TrackerOk(s, fold)
    ensures Sound(s, TakeDamage(s, ev, fold), fold)
  {
    var who := Credited(s, ev);
    if who.Some? {
      var h := Landed(s, who.value, ev, fold);
      LandedSound(s, who.value, ev, fold);
      SpreadSound(h, who.value, ev.level, fold);
      EvolvedTransitive(s, h, SpreadLevel(h, who.value, ev.level, fold));
    } else {
      EvolvedReflexive(s);
    }
  }

  lemma EvolvedReflexive(s: Tracker)
    ensures Evolved(s, s)
  {
    forall i | 0 <= i < |s.fights| ensures Became(s.fights[i], s.fights[i]) {}
  }

  /** A step that touches no fight, or drops them all. */
  lemma QuietSound(s: Tracker, t: Tracker, fold: Fold)
    requires TrackerOk(s, fold) && t.nextId == s.nextId && (t.fights == s.fights || t.fights == [])
    ensures Sound(s, t, fold)
  {
    EvolvedReflexive(s);
  }

  /** One call keeps the lifecycle invariant, and every fight on the meter afterwards is
      new or grew out of one that was there before. */
  lemma StepSound(s: Tracker, op: Op, fold: Fold)
    requires TrackerOk(s, fold)
    ensures Sound(s, Step(s, op, fold), fold)
  {
    hide TrackerOk, Evolved, TakeDamage, EndFights, TickAll;
    match op
    case Damage(ev) => DamageSound(s, ev, fold);
    case End(victim, when) => EndSound(s, victim, when, fold);
    case Tick(now) => TickSound(s, now, fold);
    case _ => QuietSound(s, Step(s, op, fold), fold);
  }

  // -- every run ------------------------------------------------------------------------

  lemma {:induction false} RunSound(s: Tracker, ops: seq<Op>, fold: Fold)
    requires TrackerOk(s, fold)
    ensures Sound(s, Run(s, ops, fold), fold)
  {
    if ops == [] {
      EvolvedReflexive(s);
    } else {
      var t := Run(s, ops[..|ops| - 1], fold);
      RunSound(s, ops[..|ops| - 1], fold);
      StepSound(t, ops[|ops| - 1], fold);
      EvolvedTransitive(s, t, Run(s, ops, fold));
    }
  }

  /** From an empty meter, whatever happens: at most one live fight per folded target,
      and a fight is dead exactly when all of its rows are. */
  lemma Lifecycle(rules: Rules, ops: seq<Op>, fold: Fold)
    ensures var s := Run(Start(rules), ops, fold);
      && (forall f, g | f in s.fights && g in s.fights && f.death.None? && g.death.None? ::
            fold(f.target) == fold(g.target) ==> f == g)
      && (forall f, row | f in s.fights && row in f.rows :: f.death.Some? <==> row.death.Some?)
      && (forall f | f in s.fights :: f.rows != [])
  {
    RunSound(Start(rules), ops, fold);
  }

  /** A dead group, for as long as it is shown, keeps every number it froze with, read at
      any later time; in any group, dead or alive, no attacker and no hit is ever dropped. */
  lemma DeadRowsAreFrozen(s: Tracker, ops: seq<Op>, fold: Fold, f: Fight, g: Fight, i: nat, unit: nat, now: int,
          later: int)
    requires TrackerOk(s, fold) && f in s.fights && g in Run(s, ops, fold).fights && f.id == g.id
    requires i < |f.rows| && unit > 0
    ensures i < |g.rows| && g.rows[i].key == f.rows[i].key && f.rows[i].hits <= g.rows[i].hits
    ensures f.death.Some? ==>
      && g.death == f.death && |g.rows| == |f.rows|
      && g.rows[i] == f.rows[i].(level := g.rows[i].level)
      && g.rows[i].Total() == f.rows[i].Total()
      && g.rows[i].TotalSeconds(later, unit) == f.rows[i].TotalSeconds(now, unit)
      && g.rows[i].TotalDps(later, unit) == f.rows[i].TotalDps(now, unit)
      && g.rows[i].TrailingDps(unit) == f.rows[i].TrailingDps(unit)
  {
    RunSound(s, ops, fold);
    IdentityIsUnique(s, Run(s, ops, fold), fold, f, g);
    assert RowOk(f.rows[i], f.death);
    if f.death.Some? { FrozenReadings(f.rows[i], g.rows[i].level, unit, now, later); }
  }

  lemma IdentityIsUnique(s: Tracker, t: Tracker, fold: Fold, f: Fight, g: Fight)
    requires TrackerOk(s, fold) && Sound(s, t, fold)
    requires f in s.fights && g in t.fights && f.id == g.id
    ensures FightOk(f) && Became(f, g)
  {
    hide FightOk, Became;
    var j :| 0 <= j < |t.fights| && t.fights[j] == g;
    var k :| 0 <= k < |s.fights| && Became(s.fights[k], g);
    SameTarget(s.fights[k], g);
  }

  lemma FrozenReadings(row: Entity, level: Option<int>, unit: nat, now: int, later: int)
    requires row.death.Some? && unit > 0
    ensures var r := row.(level := level);
      && r.Total() == row.Total()
      && r.TotalSeconds(later, unit) == row.TotalSeconds(now, unit)
      && r.TotalDps(later, unit) == row.TotalDps(now, unit)
      && r.TrailingDps(unit) == row.TrailingDps(unit)
  {}
}
