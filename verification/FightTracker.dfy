/**
 Fights as groups of attacker rows, and the tracker that opens, freezes and retires them.
 Every method changes the value it stands for (FightValues) by exactly the named step.
 */
module FightTracker {
  import opened Options
  import opened Fights
  import opened Text
  import V = FightValues

  /** One target's fight: every attacker's row, in order of arrival, one per folded name. */
  class Fight {
    ghost const id: nat
    const targetName: string
    const startTime: int
    var deathTime: Option<int>
    var rows: seq<FightEntity>
    // What this fight stands for.
    ghost var value: V.Fight

    ghost predicate Valid()
      reads this, rows
    {
      && value.id == id && value.target == targetName && value.start == startTime && value.death == deathTime
      && |value.rows| == |rows|
      && (forall i | 0 <= i < |rows| :: rows[i].Valid() && rows[i].value == value.rows[i] && rows[i].home == id)
      && (forall i, j | 0 <= i < j < |rows| :: rows[i] != rows[j])
    }

    constructor (ghost id: nat, targetName: string, startTime: int)
      ensures Valid() && rows == [] && this.id == id
      ensures value == V.Fight(id, targetName, startTime, None, [])
    {
      this.id, this.targetName, this.startTime := id, targetName, startTime;
      deathTime, rows := None, [];
      value := V.Fight(id, targetName, startTime, None, []);
    }

    method Find(key: string) returns (i: nat)
      requires Valid()
      ensures i == V.RowIndex(value.rows, key)
    {
      i := 0;
      while i < |rows| && rows[i].key != key
        invariant i <= |rows|
        invariant forall j | 0 <= j < i :: rows[j].key != key
      {
        i := i + 1;
      }
    }

    method AddDamage(key: string, attacker: string, at: int, damage: int, guess: Option<int>, window: int)
      requires Valid()
      modifies this, rows
      ensures Valid() && old(rows) <= rows && (forall i | |old(rows)| <= i < |rows| :: fresh(rows[i]))
      ensures value == V.FightHit(old(value), key, attacker, at, damage, guess, window)
    {
      hide FightEntity.Valid;
      hide V.RowHit, V.NewEntity, V.FollowWindow;
      var i := Find(key);
      if i == |rows| {
        var row := new FightEntity(id, key, attacker, at, window);
        rows, value := rows + [row], value.(rows := value.rows + [row.value]);
      } else {
        rows[i].FollowWindow(window);
        value := value.(rows := value.rows[i := rows[i].value]);
      }
      Strike(i, at, damage, guess);
    }

    /** One hit on the row at `i`. */
    method Strike(i: nat, at: int, damage: int, guess: Option<int>)
      requires Valid() && i < |rows|
      modifies this`value, rows[i]
      ensures Valid()
      ensures value == old(value).(rows := old(value).rows[i := V.RowHit(old(value).rows[i], at, damage, guess)])
    {
      hide FightEntity.Valid;
      rows[i].AddDamage(at, damage);
      rows[i].UpdateLevel(guess);
      value := value.(rows := value.rows[i := rows[i].value]);
    }

    /** Freeze every row. */
    method MarkDead(when: int)
      requires Valid()
      modifies this, rows
      ensures Valid() && rows == old(rows)
      ensures value == V.FightDie(old(value), when)
    {
      hide FightEntity.Valid;
      if deathTime.None? { deathTime := Some(when); }
      for n := 0 to |rows|
        invariant rows == old(rows) && value == old(value)
        invariant deathTime == if old(deathTime).None? then Some(when) else old(deathTime)
        invariant forall i | 0 <= i < |rows| :: rows[i].Valid()
        invariant forall i | 0 <= i < n :: rows[i].value == V.Die(value.rows[i], when)
        invariant forall i | n <= i < |rows| :: rows[i].value == value.rows[i]
      {
        rows[n].Die(when);
      }
      value := V.FightDie(value, when);
    }

    method Refresh(now: int, window: int)
      requires Valid()
      modifies this, rows
      ensures Valid() && rows == old(rows)
      ensures value == V.FightRefresh(old(value), now, window)
    {
      hide FightEntity.Valid;
      for n := 0 to |rows|
        invariant rows == old(rows) && value == old(value) && deathTime == old(deathTime)
        invariant forall i | 0 <= i < |rows| :: rows[i].Valid()
        invariant forall i | 0 <= i < n :: rows[i].value == V.Refresh(value.rows[i], now, Some(window))
        invariant forall i | n <= i < |rows| :: rows[i].value == value.rows[i]
      {
        rows[n].UpdateTrailing(now, Some(window));
      }
      value := V.FightRefresh(value, now, window);
    }

    method RaiseLevels(guess: Option<int>)
      requires Valid()
      modifies this, rows
      ensures Valid() && rows == old(rows)
      ensures value == V.FightRaise(old(value), guess)
    {
      hide FightEntity.Valid;
      for n := 0 to |rows|
        invariant rows == old(rows) && value == old(value) && deathTime == old(deathTime)
        invariant forall i | 0 <= i < |rows| :: rows[i].Valid()
        invariant forall i | 0 <= i < n :: rows[i].value == V.RaiseLevel(value.rows[i], guess)
        invariant forall i | n <= i < |rows| :: rows[i].value == value.rows[i]
      {
        rows[n].UpdateLevel(guess);
      }
      value := V.FightRaise(value, guess);
    }

    /** Keyed on the newest hit of the whole group, never earlier than the start. */
    method IsStale(now: int, retention: int) returns (stale: bool)
      requires Valid()
      ensures stale <==> V.Stale(value, now, retention)
    {
      if retention <= 0 { return false; }
      var last := startTime;
      for n := 0 to |rows|
        invariant startTime <= last
        invariant now - last > retention <==>
          && now - startTime > retention
          && forall i | 0 <= i < n :: !V.Recent(value.rows[i], now, retention)
      {
        var hits := rows[n].hits;
        if hits != [] && hits[|hits| - 1].at > last { last := hits[|hits| - 1].at; }
      }
      return now - last > retention;
    }
  }

  /** The fights on the meter, in the order they were opened. */
  class FightTracker {
    const fold: V.Fold
    var fights: seq<Fight>
    var castLandedAt: Option<int>
    var rules: V.Rules
    ghost var nextId: nat
    // What the tracker stands for.
    ghost var value: V.Tracker

    // Every row of every fight.
    ghost var owned: set<FightEntity>

    ghost predicate Valid()
      reads this, fights, owned
    {
      && value.landed == castLandedAt && value.rules == rules && value.nextId == nextId
      && |value.fights| == |fights|
      && (forall i, r | 0 <= i < |fights| && r in fights[i].rows :: r in owned)
      && (forall i | 0 <= i < |fights| ::
            fights[i].Valid() && fights[i].value == value.fights[i] && fights[i].id < nextId)
      && (forall i, j | 0 <= i < j < |fights| :: fights[i].id < fights[j].id)
    }

    constructor (fold: V.Fold, rules: V.Rules)
      ensures Valid() && fights == [] && this.fold == fold
      ensures value == V.Tracker([], None, rules, 0)
    {
      this.fold, this.rules, nextId := fold, rules, 0;
      fights, owned, castLandedAt := [], {}, None;
      value := V.Tracker([], None, rules, 0);
    }

    /** Arm the credit window. It only ever moves forward. */
    method NoteYourCast(when: int, castTime: int)
      requires Valid()
      modifies this`castLandedAt, this`value
      ensures Valid() && value == V.NoteCast(old(value), when, castTime)
    {
      var landed := when + if castTime > 0 then castTime else 0;
      if castLandedAt.None? || landed > castLandedAt.value { castLandedAt := Some(landed); }
      value := V.NoteCast(value, when, castTime);
    }

    method CancelYourCast()
      requires Valid()
      modifies this`castLandedAt, this`value
      ensures Valid() && value == V.CancelCast(old(value))
    {
      castLandedAt, value := None, V.CancelCast(value);
    }

    method Configure(rules: V.Rules)
      requires Valid()
      modifies this`rules, this`value
      ensures Valid() && value == old(value).(rules := rules)
    {
      this.rules, value := rules, value.(rules := rules);
    }

    method Clear()
      requires Valid()
      modifies this`castLandedAt, this`fights, this`value
      ensures Valid() && value == V.ClearAll(old(value))
    {
      CancelYourCast();
      if fights != [] { fights := []; }
      value := V.ClearAll(value);
    }

    /** The position of the live fight against a target, or |fights|. */
    method ActiveFight(target: string) returns (i: nat)
      requires Valid()
      ensures i == V.ActiveIndex(value.fights, target, fold)
    {
      i := 0;
      while i < |fights| && (fights[i].deathTime.Some? || fold(fights[i].targetName) != fold(target))
        invariant i <= |fights|
        invariant forall j | 0 <= j < i :: !V.LiveAgainst(value.fights[j], target, fold)
      {
        i := i + 1;
      }
    }

    /** Count one event: attribute it, find or open the fight, and spread the level guess. */
    method AddDamage(ev: V.Event)
      requires Valid()
      modifies this, fights, owned
      ensures Valid() && fresh(owned - old(owned)) && value == V.TakeDamage(old(value), ev, fold)
    {
      hide FightEntity.Valid, Fight.Valid, V.LandAt, V.SpreadLevel, V.ActiveIndex, V.Attribute;
      if ev.attacker == "" || ev.attacker == ev.target { return; }
      var who := Attribute(ev);
      if who.None? { return; }
      var i := ActiveFight(ev.target);
      if i == |fights| { Open(ev.target, ev.at); }
      Land(i, who.value, ev);
      V.SpreadNothing(value, who.value, fold);
      if ev.level.Some? { SpreadLevel(who.value, ev.level); }
    }

    /** Who a damage event counts for, or None to drop it. */
    method Attribute(ev: V.Event) returns (who: Option<string>)
      requires Valid()
      ensures who == V.Attribute(value, ev)
    {
      if ev.melee { return Some(ev.attacker); }
      if rules.sources == V.Melee { return None; }
      if ev.attacker == V.YOU {
        if castLandedAt.Some? && ev.at <= castLandedAt.value + rules.credit { return Some(V.YOU); }
        return if rules.sources == V.All then Some(V.UNATTRIBUTED) else None;
      }
      return if rules.sources == V.All then Some(ev.attacker) else None;
    }

    method Open(target: string, at: int)
      requires Valid()
      modifies this`fights, this`nextId, this`value
      ensures Valid() && |fights| == old(|fights|) + 1 && old(fights) <= fights
      ensures fresh(fights[|fights| - 1]) && fights[|fights| - 1].rows == []
      ensures value == V.OpenFight(old(value), target, at)
    {
      var fight := new Fight(nextId, target, at);
      value := V.OpenFight(value, target, at);
      fights, nextId := fights + [fight], nextId + 1;
    }

    method Land(i: nat, who: string, ev: V.Event)
      requires Valid() && i < |fights|
      modifies this`value, this`owned, fights[i], fights[i].rows
      ensures Valid() && value == V.LandAt(old(value), i, who, ev, fold)
      ensures fresh(owned - old(owned))
    {
      hide FightEntity.Valid, Fight.Valid, V.FightHit;
      HitAt(i, who, ev);
      value := value.(fights := value.fights[i := fights[i].value]);
      owned := owned + set r | r in fights[i].rows;
    }

    /** The hit itself, which touches no other fight. */
    method HitAt(i: nat, who: string, ev: V.Event)
      requires Valid() && i < |fights|
      modifies fights[i], fights[i].rows
      ensures fights[i].value == V.FightHit(value.fights[i], fold(who), who, ev.at, ev.damage, ev.level, rules.window)
      ensures forall j | 0 <= j < |fights| :: fights[j].Valid() && (j != i ==> fights[j].value == value.fights[j])
      ensures forall j, r | 0 <= j < |fights| && j != i && r in fights[j].rows :: r in owned
      ensures forall r | r in fights[i].rows :: r in owned || fresh(r)
    {
      hide FightEntity.Valid, V.FightHit;
      fights[i].AddDamage(fold(who), who, ev.at, ev.damage, ev.level, rules.window);
    }

    method SpreadLevel(who: string, guess: Option<int>)
      requires Valid()
      modifies this`value, fights, owned
      ensures Valid() && value == V.SpreadLevel(old(value), who, guess, fold)
    {
      hide FightEntity.Valid;
      for n := 0 to |fights|
        invariant Valid() && fights == old(fights) && owned == old(owned)
        invariant value == old(value).(fights := value.fights)
        invariant forall j | 0 <= j < n :: value.fights[j] == V.Spread(old(value).fights[j], who, guess, fold)
        invariant forall j | n <= j < |fights| :: value.fights[j] == old(value).fights[j]
      {
        if fold(fights[n].targetName) == fold(who) { RaiseAt(n, guess); }
      }
    }

    method RaiseAt(n: nat, guess: Option<int>)
      requires Valid() && n < |fights|
      modifies this`value, fights[n], fights[n].rows
      ensures Valid()
      ensures value == old(value).(fights := old(value).fights[n := V.FightRaise(old(value).fights[n], guess)])
    {
      hide FightEntity.Valid, V.FightRaise, V.FightDie, V.FightRefresh;
      fights[n].RaiseLevels(guess);
      value := value.(fights := value.fights[n := fights[n].value]);
    }

    /** Mark every live fight against the victim dead. */
    method EndFight(victim: string, when: int) returns (ended: bool)
      requires Valid()
      modifies this`value, fights, owned
      ensures Valid() && value == V.EndFights(old(value), victim, when, fold)
      ensures ended <==> !AllSpace(victim) && V.LiveAmong(old(value).fights, victim, fold)
    {
      if AllSpace(victim) { return false; }
      hide Valid, FightEntity.Valid, Fight.Valid, V.FightDie, V.LiveAmong, V.EndFirst, V.EndFights, AllSpace;
      ended := false;
      V.NoneAmongNone(value.fights, victim, fold);
      V.EndFirstAll(value, victim, when, fold);
      Lengths();
      for n := 0 to |fights|
        invariant Valid() && fights == old(fights) && owned == old(owned) && |old(value).fights| == |fights|
        invariant value == V.EndFirst(old(value), n, victim, when, fold)
        invariant ended <==> V.LiveAmong(old(value).fights[..n], victim, fold)
      {
        V.LiveAmongNext(old(value).fights, n, victim, fold);
        V.EndFirstNext(old(value), n, victim, when, fold);
        StandsFor(n);
        if fold(fights[n].targetName) == fold(victim) && fights[n].deathTime.None? {
          KillAt(n, when);
          ended := true;
        }
      }
      assert old(value).fights[..|fights|] == old(value).fights;
    }

    lemma Lengths()
      requires Valid()
      ensures |value.fights| == |fights|
    {}

    lemma StandsFor(n: nat)
      requires Valid() && n < |fights|
      ensures n < |value.fights|
      ensures fights[n].targetName == value.fights[n].target && fights[n].deathTime == value.fights[n].death
    {}

    method KillAt(n: nat, when: int)
      requires Valid() && n < |fights|
      modifies this`value, fights[n], fights[n].rows
      ensures Valid()
      ensures value == old(value).(fights := old(value).fights[n := V.FightDie(old(value).fights[n], when)])
    {
      hide FightEntity.Valid, V.FightRaise, V.FightDie, V.FightRefresh;
      fights[n].MarkDead(when);
      value := value.(fights := value.fights[n := fights[n].value]);
    }

    /** Refresh every row under the current window, then retire quiet groups. */
    method Tick(now: int)
      requires Valid()
      modifies this`fights, this`value, fights, owned
      ensures Valid() && value == V.TickAll(old(value), now)
    {
      hide FightEntity.Valid, Fight.Valid;
      RefreshAll(now);
      RetireQuiet(now);
    }

    method RefreshAll(now: int)
      requires Valid()
      modifies this`value, fights, owned
      ensures Valid() && value == V.RefreshFights(old(value), now)
    {
      hide FightEntity.Valid;
      for n := 0 to |fights|
        invariant Valid() && fights == old(fights) && owned == old(owned)
        invariant value == old(value).(fights := value.fights)
        invariant forall j | 0 <= j < n :: value.fights[j] == V.FightRefresh(old(value).fights[j], now, rules.window)
        invariant forall j | n <= j < |fights| :: value.fights[j] == old(value).fights[j]
      {
        RefreshAt(n, now);
      }
    }

    method RefreshAt(n: nat, now: int)
      requires Valid() && n < |fights|
      modifies this`value, fights[n], fights[n].rows
      ensures Valid()
      ensures value == old(value).(
        fights := old(value).fights[n := V.FightRefresh(old(value).fights[n], now, rules.window)])
    {
      hide FightEntity.Valid, V.FightRaise, V.FightDie, V.FightRefresh;
      fights[n].Refresh(now, rules.window);
      value := value.(fights := value.fights[n := fights[n].value]);
    }

    method RetireQuiet(now: int)
      requires Valid()
      modifies this`fights, this`value
      ensures Valid()
      ensures value == old(value).(fights := V.Retire(old(value).fights, now, rules.retention))
    {
      hide FightEntity.Valid, V.Retire, Fight.Valid;
      var kept, left := PickKept(now);
      fights, value := kept, value.(fights := left);
    }

    /** The fights that stay, in order. */
    method PickKept(now: int) returns (kept: seq<Fight>, ghost left: seq<V.Fight>)
      requires Valid()
      ensures left == V.Retire(value.fights, now, rules.retention) && |left| == |kept|
      ensures forall i | 0 <= i < |kept| :: kept[i].Valid() && kept[i].value == left[i] && kept[i].id < nextId
      ensures forall i, j | 0 <= i < j < |kept| :: kept[i].id < kept[j].id
      ensures forall i, r | 0 <= i < |kept| && r in kept[i].rows :: r in owned
    {
      hide FightEntity.Valid, V.Kept;
      kept, left := [], [];
      for n := 0 to |fights|
        invariant left == V.Retire(value.fights[..n], now, rules.retention) && |left| == |kept|
        invariant forall i | 0 <= i < |kept| :: kept[i].value == left[i] && kept[i] in fights
      {
        var keep := IsKept(n, now);
        V.RetireNext(value.fights, n, now, rules.retention);
        if keep { kept, left := kept + [fights[n]], left + [value.fights[n]]; }
      }
      assert value.fights[..|fights|] == value.fights;
      V.RetireRises(value.fights, now, rules.retention);
      assert forall i | 0 <= i < |kept| :: kept[i].Valid() && kept[i].id == left[i].id;
    }

    method IsKept(n: nat, now: int) returns (keep: bool)
      requires Valid() && n < |fights|
      ensures keep <==> V.Kept(value.fights[n], now, rules.retention)
    {
      var stale := fights[n].IsStale(now, rules.retention);
      keep := fights[n].rows != [] && !stale;
    }
  }
}
