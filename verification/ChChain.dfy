/** Complete Heal chains: who called last, and whether that is your cue. */
module ChChain {
  import opened Text

  const IDLE_EXPIRY := 20

  datatype Chain = Chain(highest: string, yours: string)

  datatype Call = Call(recipient: string, position: string, caster: string, time: int)

  predicate IsAlpha(c: char) { 'a' <= c <= 'z' || 'A' <= c <= 'Z' }

  /** Order of strings, character by character. */
  predicate Less(a: string, b: string) {
    b != "" && (a == "" || a[0] < b[0] || (a[0] == b[0] && Less(a[1..], b[1..])))
  }

  function ToInt(s: string): int { match ParseInt(s) case Some(n) => n case None => 0 }

  predicate Increases(c: Chain, call: Call) { AllSpace(c.highest) || Less(c.highest, call.position) }

  /** The chain once a call has been seen. */
  function Noted(c: Chain, call: Call): Chain {
    if AllSpace(call.position) then c
    else Chain(if Increases(c, call) then call.position else c.highest,
               if call.caster == "You" then call.position else c.yours)
  }

  /** `after` is the chain with the call noted. */
  predicate Cue(after: Chain, call: Call, increased: bool)
    requires after.highest != "" && after.yours != "" && call.position != ""
  {
    var h, y, p := after.highest[0], after.yours[0], call.position[0];
    if IsAlpha(h) && IsAlpha(p) && IsAlpha(y) then
      var highest, mine, current := LowerChar(h), LowerChar(y), LowerChar(p);
      var dif := mine as int - current as int;
      (mine != 'a' || !increased || dif != 1) &&
      ((highest == 'z' && mine == 'a' && current == 'z' && !increased) || dif == 1)
    else if IsDigit(h) && IsDigit(p) && IsDigit(y) then
      var highest, mine, current := ToInt(after.highest), ToInt(after.yours), ToInt(call.position);
      var dif := mine - current;
      (mine != 1 || !increased || dif != 1) && ((current == highest && mine == 1 && !increased) || dif == 1)
    else false
  }

  /** Whether a call is your cue: the one before yours, wrapping at the end of the chain. */
  predicate Warns(c: Chain, call: Call) {
    if AllSpace(call.position) then false
    else
      var after := Noted(c, call);
      !AllSpace(after.yours) && call.caster != "You" && Cue(after, call, Increases(c, call))
  }

  // -- the chains of all targets ------------------------------------------------------------------

  datatype Entry = Entry(chain: Chain, updatedAt: int)

  function Expire(entries: map<string, Entry>, now: int): map<string, Entry> {
    map target | target in entries && now - entries[target].updatedAt <= IDLE_EXPIRY :: entries[target]
  }

  function ChainOf(entries: map<string, Entry>, call: Call): Chain {
    var live := Expire(entries, call.time);
    if call.recipient in live then live[call.recipient].chain else Chain("", "")
  }

  function Observed(entries: map<string, Entry>, call: Call): map<string, Entry> {
    Expire(entries, call.time)[call.recipient := Entry(Noted(ChainOf(entries, call), call), call.time)]
  }

  class ChainData {
    var highestOrder: string
    var yourChainOrder: string

    constructor (c: Chain)
      ensures highestOrder == c.highest && yourChainOrder == c.yours
    {
      highestOrder, yourChainOrder := c.highest, c.yours;
    }

    method ShouldWarn(call: Call) returns (warn: bool)
      modifies this
      ensures var was := Chain(old(highestOrder), old(yourChainOrder));
        Chain(highestOrder, yourChainOrder) == Noted(was, call) && warn == Warns(was, call)
    {
      if AllSpace(call.position) { return false; }
      var increased, firstRun := false, false;
      if call.caster == "You" {
        yourChainOrder := call.position;
        firstRun := true;
      }
      if AllSpace(highestOrder) || Less(highestOrder, call.position) {
        highestOrder := call.position;
        increased := true;
      }
      if AllSpace(yourChainOrder) || firstRun { return false; }
      return Cue(Chain(highestOrder, yourChainOrder), call, increased);
    }
  }

  class ChainService {
    var entries: map<string, Entry>

    constructor ()
      ensures entries == map[]
    {
      entries := map[];
    }

    method Observe(call: Call) returns (warn: bool)
      modifies this
      ensures entries == Observed(old(entries), call) && warn == Warns(ChainOf(old(entries), call), call)
    {
      entries := Expire(entries, call.time);
      var chain := if call.recipient in entries then entries[call.recipient].chain else Chain("", "");
      var data := new ChainData(chain);
      warn := data.ShouldWarn(call);
      entries := entries[call.recipient := Entry(Chain(data.highestOrder, data.yourChainOrder), call.time)];
    }
  }

  // -- numbered chains ----------------------------------------------------------------------------

  /** A position as callers write it: three digits. */
  function Pad(n: nat): string
    requires n < 1000
  {
    [DigitChar(n / 100), DigitChar(n / 10 % 10), DigitChar(n % 10)]
  }

  lemma DigitValue(d: nat)
    requires d < 10
    ensures DigitChar(d) as int == '0' as int + d && IsDigit(DigitChar(d)) && !IsSpace(DigitChar(d))
  {}

  function Three(a: nat, b: nat, c: nat): string
    requires a < 10 && b < 10 && c < 10
  {
    [DigitChar(a), DigitChar(b), DigitChar(c)]
  }

  lemma ThreeReads(a: nat, b: nat, c: nat)
    requires a < 10 && b < 10 && c < 10
    ensures AllDigits(Three(a, b, c)) && ParseDigits(Three(a, b, c)) == 100 * a + 10 * b + c
  {
    hide DigitChar;
    DigitValue(a);
    DigitValue(b);
    DigitValue(c);
    var s := Three(a, b, c);
    assert s[..2][..1] == s[..1] && s[..1][..0] == "";
    assert ParseDigits(s[..1]) == a;
    assert ParseDigits(s[..2]) == 10 * a + b;
  }

  lemma PadReads(n: nat)
    requires n < 1000
    ensures ToInt(Pad(n)) == n && !AllSpace(Pad(n)) && IsDigit(Pad(n)[0])
  {
    hide DigitChar, ParseDigits, Ungrouped, IsSpace;
    var a, b, c := n / 100, n / 10 % 10, n % 10;
    assert n == 100 * a + 10 * b + c;
    DigitValue(a);
    DigitValue(c);
    ThreeReads(a, b, c);
    var s := Pad(n);
    assert s == Three(a, b, c);
    UngroupedDigits(s);
    assert s[0] in s && forall i | 0 <= i < |s| :: IsDigit(s[i]);
  }

  lemma LessThree(a: nat, b: nat, c: nat, x: nat, y: nat, z: nat)
    requires a < 10 && b < 10 && c < 10 && x < 10 && y < 10 && z < 10
    ensures Less(Three(a, b, c), Three(x, y, z)) <==> a < x || (a == x && (b < y || (b == y && c < z)))
  {
    hide DigitChar;
    DigitValue(a);
    DigitValue(b);
    DigitValue(c);
    DigitValue(x);
    DigitValue(y);
    DigitValue(z);
    var s, t := Three(a, b, c), Three(x, y, z);
    assert s[1..] == [s[1], s[2]] && t[1..] == [t[1], t[2]];
    assert [s[1], s[2]][1..] == [s[2]] && [t[1], t[2]][1..] == [t[2]];
    assert [s[2]][1..] == "" && [t[2]][1..] == "";
    assert Less([s[2]], [t[2]]) <==> c < z;
    assert Less(s[1..], t[1..]) <==> b < y || (b == y && c < z);
  }

  lemma PadOrder(a: nat, b: nat)
    requires a < 1000 && b < 1000
    ensures Less(Pad(a), Pad(b)) <==> a < b
  {
    hide Less, DigitChar;
    assert a == 100 * (a / 100) + 10 * (a / 10 % 10) + a % 10;
    assert b == 100 * (b / 100) + 10 * (b / 10 % 10) + b % 10;
    LessThree(a / 100, a / 10 % 10, a % 10, b / 100, b / 10 % 10, b % 10);
  }

  // -- lettered chains ----------------------------------------------------------------------------

  /** The letter of a place, as callers write it: three times over. */
  function Triple(place: nat): string
    requires 1 <= place <= 26
  {
    [LetterOf(place), LetterOf(place), LetterOf(place)]
  }

  function LetterOf(place: nat): char
    requires 1 <= place <= 26
  {
    'A' + (place - 1) as char
  }

  lemma LetterIs(place: nat)
    requires 1 <= place <= 26
    ensures var c := LetterOf(place);
      && IsAlpha(c) && !IsSpace(c) && !IsDigit(c) && LowerChar(c) as int == 'a' as int + place - 1
      && c as int == 'A' as int + place - 1
  {}

  lemma TripleOrder(a: nat, b: nat)
    requires 1 <= a <= 26 && 1 <= b <= 26
    ensures Less(Triple(a), Triple(b)) <==> a < b
  {
    hide LetterOf;
    LetterIs(a);
    LetterIs(b);
    var s, t := Triple(a), Triple(b);
    assert s[1..] == [s[1], s[2]] && t[1..] == [t[1], t[2]];
    assert [s[1], s[2]][1..] == [s[2]] && [t[1], t[2]][1..] == [t[2]];
    assert [s[2]][1..] == "" && [t[2]][1..] == "";
    assert Less([s[2]], [t[2]]) <==> a < b;
    assert Less(s[1..], t[1..]) <==> a < b;
  }

  lemma TripleReads(place: nat)
    requires 1 <= place <= 26
    ensures var s := Triple(place);
      s[0] == LetterOf(place) && !AllSpace(s) && IsAlpha(s[0]) && LowerChar(s[0]) as int == 'a' as int + place - 1
  {
    hide LetterOf;
    LetterIs(place);
    assert Triple(place)[0] in Triple(place);
  }

  // -- chains in turn -------------------------------------------------------------------------------

  datatype Style = Numbers | Letters

  /** A rotation there are enough names for. */
  predicate Rotates(style: Style, n: nat) { 2 <= n <= match style { case Numbers => 999 case Letters => 26 } }

  /** How the caller in a place is called. */
  function Named(style: Style, place: nat): string
    requires 1 <= place <= match style { case Numbers => 999 case Letters => 26 }
  {
    match style case Numbers => Pad(place) case Letters => Triple(place)
  }

  /** Whose turn call `m` of a chain of `n` is, counting calls from 0 and places from 1. */
  function Place(m: nat, n: nat): (place: nat)
    requires n > 0
    ensures 1 <= place <= n
  {
    if m < n then m + 1 else Place(m - n, n)
  }

  /** A chain of `n` callers with you in place `k`, called in turn. */
  ghost predicate InTurn(style: Style, call: Call, m: nat, n: nat, k: nat)
    requires Rotates(style, n)
  {
    call.position == Named(style, Place(m, n)) && (call.caster == "You" <==> Place(m, n) == k)
  }

  /** The chain after `m` calls. */
  function After(style: Style, m: nat, n: nat, k: nat): Chain
    requires Rotates(style, n) && 1 <= k <= n
  {
    Chain(if m == 0 then "" else Named(style, if m < n then m else n), if m >= k then Named(style, k) else "")
  }

  /** The place called just before yours. */
  function Cued(n: nat, k: nat): nat
    requires k > 0
  {
    if k == 1 then n else k - 1
  }

  /** Whether the chain goes round to the first caller: numbers do from whichever is highest,
      letters only from Z. */
  predicate GoesRound(style: Style, n: nat, k: nat) { k > 1 || style == Numbers || n == 26 }

  /** One call of a chain in turn. */
  lemma CallInTurn(style: Style, m: nat, n: nat, k: nat, call: Call)
    requires Rotates(style, n) && 1 <= k <= n && InTurn(style, call, m, n, k)
    ensures Noted(After(style, m, n, k), call) == After(style, m + 1, n, k)
    ensures Warns(After(style, m, n, k), call) <==> m >= n && Place(m, n) == Cued(n, k) && GoesRound(style, n, k)
  {
    match style
    case Numbers => NumberInTurn(m, n, k, call);
    case Letters => LetterInTurn(m, n, k, call);
  }

  lemma NumberInTurn(m: nat, n: nat, k: nat, call: Call)
    requires Rotates(Numbers, n) && 1 <= k <= n && InTurn(Numbers, call, m, n, k)
    ensures Noted(After(Numbers, m, n, k), call) == After(Numbers, m + 1, n, k)
    ensures Warns(After(Numbers, m, n, k), call) <==> m >= n && Place(m, n) == Cued(n, k)
  {
    hide Less, ToInt, Pad, IsDigit;
    var p := Place(m, n);
    var top := if m < n then m else n;
    PadReads(p);
    PadReads(k);
    PadReads(n);
    PadReads(top);
    PadOrder(top, p);
    NotAlpha(Pad(p)[0]);
    assert Increases(After(Numbers, m, n, k), call) <==> m < n;
    if m < n { PadReads(m + 1); }
  }

  lemma LetterInTurn(m: nat, n: nat, k: nat, call: Call)
    requires Rotates(Letters, n) && 1 <= k <= n && InTurn(Letters, call, m, n, k)
    ensures Noted(After(Letters, m, n, k), call) == After(Letters, m + 1, n, k)
    ensures Warns(After(Letters, m, n, k), call) <==>
      m >= n && Place(m, n) == Cued(n, k) && GoesRound(Letters, n, k)
  {
    hide Less, Triple, LowerChar, AllSpace, IsAlpha;
    var p := Place(m, n);
    var top := if m < n then m else n;
    TripleReads(p);
    TripleReads(k);
    TripleReads(n);
    EmptyIsBlank();
    if m > 0 {
      TripleReads(top);
      TripleOrder(top, p);
    }
    assert Increases(After(Letters, m, n, k), call) <==> m < n;
    if m < n { TripleReads(m + 1); }
  }

  lemma EmptyIsBlank()
    ensures AllSpace("")
  {}

  lemma NotAlpha(c: char)
    ensures IsDigit(c) ==> !IsAlpha(c)
  {}

  lemma {:induction false} PlaceInRotation(rotation: nat, n: nat, m: nat)
    requires n > 0 && rotation * n <= m < rotation * n + n
    ensures Place(m, n) == m - rotation * n + 1
  {
    if rotation > 0 {
      assert rotation * n == (rotation - 1) * n + n && (rotation - 1) * n >= 0;
      PlaceInRotation(rotation - 1, n, m - n);
    }
  }

  /** Each rotation holds the cue exactly once. */
  lemma OneCueARotation(rotation: nat, n: nat, k: nat, m: nat)
    requires 2 <= n && 1 <= k <= n && rotation * n <= m < rotation * n + n
    ensures Place(m, n) == Cued(n, k) <==> m == rotation * n + Cued(n, k) - 1
  {
    PlaceInRotation(rotation, n, m);
  }

  // -- a chain among everyone else's calls ------------------------------------------------------------

  function Run(calls: seq<Call>): map<string, Entry> {
    if calls == [] then map[] else Observed(Run(calls[..|calls| - 1]), calls[|calls| - 1])
  }

  /** How many calls were for the target. */
  function Count(calls: seq<Call>, target: string): (n: nat)
    ensures n > 0 ==> calls != []
  {
    if calls == [] then 0
    else Count(calls[..|calls| - 1], target) + if calls[|calls| - 1].recipient == target then 1 else 0
  }

  /** When the target was last called. */
  function LastTime(calls: seq<Call>, target: string): int {
    if calls == [] then 0
    else if calls[|calls| - 1].recipient == target then calls[|calls| - 1].time
    else LastTime(calls[..|calls| - 1], target)
  }

  /** The log is in order, and the target's calls are in turn and never an expiry apart. */
  ghost predicate CalledInTurn(style: Style, calls: seq<Call>, target: string, n: nat, k: nat)
    requires Rotates(style, n)
  {
    && (forall i | 0 < i < |calls| :: calls[i - 1].time <= calls[i].time)
    && (forall i | 0 <= i < |calls| && calls[i].recipient == target ::
          var m := Count(calls[..i], target);
          InTurn(style, calls[i], m, n, k) && (m > 0 ==> calls[i].time - LastTime(calls[..i], target) <= 20))
  }

  /** The target's chain is where its own calls have brought it, or has been idle too long. */
  ghost predicate Stands(style: Style, calls: seq<Call>, target: string, n: nat, k: nat)
    requires Rotates(style, n) && 1 <= k <= n
  {
    var entries, m, last := Run(calls), Count(calls, target), LastTime(calls, target);
    if m == 0 then target !in entries
    else
      && (target in entries <==> calls[|calls| - 1].time - last <= 20)
      && (target in entries ==> entries[target] == Entry(After(style, m, n, k), last))
  }

  lemma InTurnBefore(style: Style, calls: seq<Call>, target: string, n: nat, k: nat)
    requires Rotates(style, n) && CalledInTurn(style, calls, target, n, k) && calls != []
    ensures CalledInTurn(style, calls[..|calls| - 1], target, n, k)
  {
    hide InTurn, Count, LastTime;
    var init := calls[..|calls| - 1];
    assert forall i | 0 <= i < |init| :: init[i] == calls[i] && init[..i] == calls[..i];
  }

  lemma ChainFound(style: Style, calls: seq<Call>, call: Call, target: string, n: nat, k: nat)
    requires Rotates(style, n) && 1 <= k <= n && Stands(style, calls, target, n, k) && call.recipient == target
    requires calls != [] ==> calls[|calls| - 1].time <= call.time
    requires Count(calls, target) > 0 ==> call.time - LastTime(calls, target) <= 20
    ensures ChainOf(Run(calls), call) == After(style, Count(calls, target), n, k)
  {
    hide Run, Count, LastTime;
  }

  /** Whatever other targets are called meanwhile, a target's chain is its own calls'. */
  lemma {:induction false} ChainStands(style: Style, calls: seq<Call>, target: string, n: nat, k: nat)
    requires Rotates(style, n) && 1 <= k <= n && CalledInTurn(style, calls, target, n, k)
    ensures Stands(style, calls, target, n, k)
  {
    hide After, InTurn, Noted;
    if calls != [] {
      var init, call := calls[..|calls| - 1], calls[|calls| - 1];
      InTurnBefore(style, calls, target, n, k);
      ChainStands(style, init, target, n, k);
      if init != [] { assert init[|init| - 1] == calls[|calls| - 2]; }
      if call.recipient == target {
        ChainFound(style, init, call, target, n, k);
        CallInTurn(style, Count(init, target), n, k, call);
      }
    }
  }

  /** In a chain called in turn, whoever else is called meanwhile, no call of the first
      rotation warns, and after it exactly the call of the place before yours does. */
  lemma WarnsOncePerRotation(style: Style, calls: seq<Call>, target: string, n: nat, k: nat, i: nat)
    requires Rotates(style, n) && 1 <= k <= n && CalledInTurn(style, calls, target, n, k)
    requires i < |calls| && calls[i].recipient == target
    ensures var m := Count(calls[..i], target);
      Warns(ChainOf(Run(calls[..i]), calls[i]), calls[i]) <==>
        m >= n && Place(m, n) == Cued(n, k) && GoesRound(style, n, k)
    decreases |calls|
  {
    hide After, Noted, Warns, Run, Stands, ChainOf;
    InTurnBefore(style, calls, target, n, k);
    if i < |calls| - 1 {
      var init := calls[..|calls| - 1];
      assert init[..i] == calls[..i];
      WarnsOncePerRotation(style, init, target, n, k, i);
    } else {
      var init := calls[..i];
      ChainStands(style, init, target, n, k);
      if init != [] { assert init[|init| - 1] == calls[i - 1]; }
      ChainFound(style, init, calls[i], target, n, k);
      CallInTurn(style, Count(init, target), n, k, calls[i]);
    }
  }
}
