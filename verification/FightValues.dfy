/**
 What the damage meter's objects mean, as plain values: one attacker's row, one target's
 fight, the whole tracker, and the effect of each call on them. A row here carries no
 sweep caches: its best window is defined by measuring all of its hits again.
 */
module FightValues {
  import opened Options
  import opened BestWindow
  import opened Text

  const YOU := "You"
  const UNATTRIBUTED := "(spell damage)"

  // -- one attacker ------------------------------------------------------------------

  datatype Entity = Entity(
    key: string,
    attacker: string,
    start: int,
    death: Option<int>,
    level: Option<int>,
    hits: seq<Hit>,
    trailing: int,
    best: int,
    window: int)
  {
    function Total(): int { Sum(hits, 0, |hits|) }

    /** Fight length in whole seconds, frozen at death; `unit` is one second. */
    function TotalSeconds(now: int, unit: nat): int
      requires unit > 0
    {
      TruncDiv((if death.Some? then death.value else now) - start, unit)
    }

    function TotalDps(now: int, unit: nat): int
      requires unit > 0
    {
      var seconds := TotalSeconds(now, unit);
      if Total() > 0 && seconds > 0 then TruncDiv(Total(), seconds) else 0
    }

    /** Trailing damage over the full window, never over the elapsed time. */
    function TrailingDps(unit: nat): int
      requires unit > 0
    {
      if trailing > 0 && window > 0 then trailing * unit / window else 0
    }
  }

  /** Division that rounds toward zero. */
  function TruncDiv(a: int, b: int): int
    requires b > 0
  {
    if a >= 0 then a / b else -((-a) / b)
  }

  function NewEntity(key: string, attacker: string, start: int, window: int): Entity {
    Entity(key, attacker, start, None, None, [], 0, 0, window)
  }

  function RaiseLevel(e: Entity, guess: Option<int>): Entity {
    if guess.Some? && (e.level.None? || guess.value > e.level.value) then e.(level := guess) else e
  }

  /** A dead row adopts neither the clock nor the window. */
  function Refresh(e: Entity, now: int, window: Option<int>): Entity {
    if e.death.Some? then e
    else
      var w := if window.Some? then window.value else e.window;
      if e.hits == [] then e.(window := w)
      else e.(window := w, trailing := Trailing(e.hits, now - w), best := Best(e.hits, |e.hits|, w))
  }

  function AddHit(e: Entity, at: int, damage: int): Entity {
    Refresh(e.(hits := e.hits + [Hit(at, damage)]), at, None)
  }

  function Die(e: Entity, when: int): Entity {
    if e.death.None? then e.(death := Some(when)) else e
  }

  // -- one target ----------------------------------------------------------------------

  /** One target's group, rows in the order their attackers first landed a hit. `id` stands
      for the identity of the fight object. */
  datatype Fight = Fight(id: nat, target: string, start: int, death: Option<int>, rows: seq<Entity>)

  /** Where the attacker's row is, or |rows|. */
  ghost function RowIndex(rows: seq<Entity>, key: string): (i: nat)
    ensures i <= |rows|
    ensures i < |rows| ==> rows[i].key == key
    ensures forall j :: 0 <= j < i ==> rows[j].key != key
  {
    if rows == [] || rows[0].key == key then 0 else 1 + RowIndex(rows[1..], key)
  }

  /** A live row follows the configured window; a slain one keeps the one it froze under. */
  function FollowWindow(row: Entity, window: int): Entity {
    if row.death.None? then row.(window := window) else row
  }

  function RowHit(row: Entity, at: int, damage: int, guess: Option<int>): Entity {
    RaiseLevel(AddHit(row, at, damage), guess)
  }

  ghost function FightHit(f: Fight, key: string, attacker: string, at: int, damage: int,
                          guess: Option<int>, window: int): Fight {
    var i := RowIndex(f.rows, key);
    if i < |f.rows| then f.(rows := f.rows[i := RowHit(FollowWindow(f.rows[i], window), at, damage, guess)])
    else f.(rows := f.rows + [RowHit(NewEntity(key, attacker, at, window), at, damage, guess)])
  }

  function FightDie(f: Fight, when: int): Fight {
    f.(death := if f.death.None? then Some(when) else f.death,
       rows := seq(|f.rows|, i requires 0 <= i < |f.rows| => Die(f.rows[i], when)))
  }

  function FightRefresh(f: Fight, now: int, window: int): Fight {
    f.(rows := seq(|f.rows|, i requires 0 <= i < |f.rows| => Refresh(f.rows[i], now, Some(window))))
  }

  function FightRaise(f: Fight, guess: Option<int>): Fight {
    f.(rows := seq(|f.rows|, i requires 0 <= i < |f.rows| => RaiseLevel(f.rows[i], guess)))
  }

  /** The row's newest hit came less than `retention` ago; a row without hits never did. */
  predicate Recent(row: Entity, now: int, retention: int) {
    row.hits != [] && now - row.hits[|row.hits| - 1].at <= retention
  }

  /** The whole group has been quiet, start included, for longer than the retention. */
  predicate Stale(f: Fight, now: int, retention: int) {
    && retention > 0
    && now - f.start > retention
    && forall i | 0 <= i < |f.rows| :: !Recent(f.rows[i], now, retention)
  }

  // -- the tracker -----------------------------------------------------------------------

  datatype Sources = Melee | MeleeAndMine | All
  datatype Rules = Rules(sources: Sources, retention: int, window: int, credit: int)
  datatype Event = Event(attacker: string, target: string, melee: bool, at: int, damage: int, level: Option<int>)
  datatype Tracker = Tracker(fights: seq<Fight>, landed: Option<int>, rules: Rules, nextId: nat)

  /** A name comparison key; the source's casefold. Nothing is assumed about it. */
  type Fold = string -> string

  predicate WithinCredit(s: Tracker, at: int) {
    s.landed.Some? && at <= s.landed.value + s.rules.credit
  }

  function Attribute(s: Tracker, ev: Event): Option<string> {
    if ev.melee then Some(ev.attacker)
    else if s.rules.sources == Melee then None
    else if ev.attacker == YOU then
      if WithinCredit(s, ev.at) then Some(YOU)
      else if s.rules.sources == All then Some(UNATTRIBUTED) else None
    else if s.rules.sources == All then Some(ev.attacker) else None
  }

  /** Who the event is credited to, or None when the tracker drops it. */
  function Credited(s: Tracker, ev: Event): Option<string> {
    if ev.attacker == "" || ev.attacker == ev.target then None else Attribute(s, ev)
  }

  ghost predicate LiveAgainst(f: Fight, target: string, fold: Fold) {
    f.death.None? && fold(f.target) == fold(target)
  }

  /** The first live fight against `target`, or |fights|. */
  ghost function ActiveIndex(fights: seq<Fight>, target: string, fold: Fold): (i: nat)
    ensures i <= |fights|
    ensures i < |fights| ==> LiveAgainst(fights[i], target, fold)
    ensures forall j :: 0 <= j < i ==> !LiveAgainst(fights[j], target, fold)
  {
    if fights == [] || LiveAgainst(fights[0], target, fold) then 0
    else 1 + ActiveIndex(fights[1..], target, fold)
  }

  function OpenFight(s: Tracker, target: string, at: int): Tracker {
    s.(fights := s.fights + [Fight(s.nextId, target, at, None, [])], nextId := s.nextId + 1)
  }

  ghost function LandAt(s: Tracker, i: nat, who: string, ev: Event, fold: Fold): Tracker
    requires i < |s.fights|
  {
    s.(fights := s.fights[i := FightHit(s.fights[i], fold(who), who, ev.at, ev.damage, ev.level, s.rules.window)])
  }

  /** A guess about an attacker also reaches every row where it is the target. */
  function Spread(f: Fight, who: string, guess: Option<int>, fold: Fold): Fight {
    if guess.Some? && fold(f.target) == fold(who) then FightRaise(f, guess) else f
  }

  ghost function SpreadLevel(s: Tracker, who: string, guess: Option<int>, fold: Fold): Tracker {
    s.(fights := seq(|s.fights|, i requires 0 <= i < |s.fights| => Spread(s.fights[i], who, guess, fold)))
  }

  lemma SpreadNothing(s: Tracker, who: string, fold: Fold)
    ensures SpreadLevel(s, who, None, fold) == s
  {
    assert SpreadLevel(s, who, None, fold).fights == s.fights;
  }

  ghost function TakeDamage(s: Tracker, ev: Event, fold: Fold): Tracker {
    var who := Credited(s, ev);
    if who.None? then s
    else
      var i := ActiveIndex(s.fights, ev.target, fold);
      var t := if i == |s.fights| then OpenFight(s, ev.target, ev.at) else s;
      SpreadLevel(LandAt(t, i, who.value, ev, fold), who.value, ev.level, fold)
  }

  ghost predicate LiveAmong(fights: seq<Fight>, victim: string, fold: Fold) {
    exists f | f in fights :: LiveAgainst(f, victim, fold)
  }

  lemma NoneAmongNone(fights: seq<Fight>, victim: string, fold: Fold)
    ensures !LiveAmong(fights[..0], victim, fold)
  {}

  lemma LiveAmongNext(fights: seq<Fight>, n: nat, victim: string, fold: Fold)
    requires n < |fights|
    ensures LiveAmong(fights[..n + 1], victim, fold) <==>
      LiveAmong(fights[..n], victim, fold) || LiveAgainst(fights[n], victim, fold)
  {
    assert fights[..n + 1] == fights[..n] + [fights[n]];
  }

  ghost function EndIfLive(f: Fight, victim: string, when: int, fold: Fold): Fight {
    if LiveAgainst(f, victim, fold) then FightDie(f, when) else f
  }

  /** A blank victim ends nothing. */
  ghost function EndFights(s: Tracker, victim: string, when: int, fold: Fold): Tracker {
    if AllSpace(victim) then s
    else s.(fights := seq(|s.fights|, i requires 0 <= i < |s.fights| => EndIfLive(s.fights[i], victim, when, fold)))
  }

  /** Only the first `n` fights looked at yet. */
  ghost function EndFirst(s: Tracker, n: nat, victim: string, when: int, fold: Fold): Tracker {
    s.(fights := seq(|s.fights|, i requires 0 <= i < |s.fights| =>
      if i < n then EndIfLive(s.fights[i], victim, when, fold) else s.fights[i]))
  }

  lemma EndFirstNext(s: Tracker, n: nat, victim: string, when: int, fold: Fold)
    requires n < |s.fights|
    ensures var t := EndFirst(s, n, victim, when, fold);
      && |t.fights| == |s.fights| && t.fights[n] == s.fights[n]
      && EndFirst(s, n + 1, victim, when, fold) ==
           t.(fights := t.fights[n := EndIfLive(t.fights[n], victim, when, fold)])
  {
    hide EndIfLive;
    var t, u := EndFirst(s, n, victim, when, fold), EndFirst(s, n + 1, victim, when, fold);
    assert u.fights == t.fights[n := EndIfLive(t.fights[n], victim, when, fold)];
  }

  lemma EndFirstAll(s: Tracker, victim: string, when: int, fold: Fold)
    ensures EndFirst(s, 0, victim, when, fold) == s
    ensures !AllSpace(victim) ==> EndFirst(s, |s.fights|, victim, when, fold) == EndFights(s, victim, when, fold)
  {
    hide EndIfLive;
    assert EndFirst(s, 0, victim, when, fold).fights == s.fights;
    if !AllSpace(victim) {
      assert EndFirst(s, |s.fights|, victim, when, fold).fights == EndFights(s, victim, when, fold).fights;
    }
  }

  function RefreshFights(s: Tracker, now: int): Tracker {
    s.(fights := seq(|s.fights|, i requires 0 <= i < |s.fights| => FightRefresh(s.fights[i], now, s.rules.window)))
  }

  predicate Kept(f: Fight, now: int, retention: int) {
    f.rows != [] && !Stale(f, now, retention)
  }

  /** Groups leave as a whole or not at all. */
  function Retire(fights: seq<Fight>, now: int, retention: int): seq<Fight> {
    if fights == [] then []
    else
      var rest, last := Retire(fights[..|fights| - 1], now, retention), fights[|fights| - 1];
      if Kept(last, now, retention) then rest + [last] else rest
  }

  ghost predicate IdsRise(fights: seq<Fight>) {
    forall i, j | 0 <= i < j < |fights| :: fights[i].id < fights[j].id
  }

  /** Retiring keeps exactly the groups that are neither empty nor stale, in order. */
  lemma {:induction false} RetireIsFilter(fights: seq<Fight>, now: int, retention: int)
    ensures forall f :: f in Retire(fights, now, retention) <==> f in fights && Kept(f, now, retention)
  {
    if fights != [] {
      hide Kept;
      var n := |fights| - 1;
      RetireIsFilter(fights[..n], now, retention);
      assert fights == fights[..n] + [fights[n]];
    }
  }

  lemma {:induction false} RetireRises(fights: seq<Fight>, now: int, retention: int)
    requires IdsRise(fights)
    ensures IdsRise(Retire(fights, now, retention))
  {
    if fights != [] {
      hide Kept;
      var n := |fights| - 1;
      var rest := Retire(fights[..n], now, retention);
      RetireRises(fights[..n], now, retention);
      RetireIsFilter(fights[..n], now, retention);
      forall i | 0 <= i < |rest| ensures rest[i].id < fights[n].id {
        assert rest[i] in fights[..n];
      }
    }
  }

  lemma RetireNext(fights: seq<Fight>, n: nat, now: int, retention: int)
    requires n < |fights|
    ensures Retire(fights[..n + 1], now, retention) ==
      Retire(fights[..n], now, retention) + if Kept(fights[n], now, retention) then [fights[n]] else []
  {
    assert fights[..n + 1][..n] == fights[..n];
  }

  function TickAll(s: Tracker, now: int): Tracker {
    var t := RefreshFights(s, now);
    t.(fights := Retire(t.fights, now, s.rules.retention))
  }

  function NoteCast(s: Tracker, when: int, castTime: int): Tracker {
    var landed := when + (if castTime > 0 then castTime else 0);
    if s.landed.None? || landed > s.landed.value then s.(landed := Some(landed)) else s
  }

  function CancelCast(s: Tracker): Tracker { s.(landed := None) }

  function ClearAll(s: Tracker): Tracker { s.(landed := None, fights := []) }
}
