/** The verdict on any one call, in turn or not, and what becomes of a chain left idle. */
module ChCalls {
  import opened Text
  import opened ChChain

  /** In a numbered chain in which you have called, a call by another warns exactly when its number
      is the one before yours, or you are first and it is the highest called so far. A call with
      no position counts as number 0, and so is taken for the one before the first. */
  lemma AnyNumberedCall(top: nat, mine: nat, number: nat, call: Call)
    requires 1 <= mine <= top < 1000 && number < 1000 && call.position == Pad(number)
    ensures var c := Chain(Pad(top), Pad(mine));
      && Noted(c, call).highest == Pad(if number > top then number else top)
      && (Warns(c, call) <==> call.caster != "You" && (number == mine - 1 || (mine == 1 && number == top)))
  {
    hide Less, ToInt, Pad, IsDigit;
    PadReads(top);
    PadReads(mine);
    PadReads(number);
    PadOrder(top, number);
    NotAlpha(Pad(number)[0]);
  }

  /** In a lettered chain in which you have called, a call by another warns exactly when its letter
      is the one before yours, or yours is A, it is Z, and Z has been called. */
  lemma AnyLetteredCall(top: nat, mine: nat, letter: nat, call: Call)
    requires 1 <= mine <= top <= 26 && 1 <= letter <= 26 && call.position == Triple(letter)
    ensures var c := Chain(Triple(top), Triple(mine));
      && Noted(c, call).highest == Triple(if letter > top then letter else top)
      && (Warns(c, call) <==> call.caster != "You" && (letter == mine - 1 || (mine == 1 && letter == 26 == top)))
  {
    hide Less, Triple, LowerChar, AllSpace, IsAlpha;
    TripleReads(top);
    TripleReads(mine);
    TripleReads(letter);
    TripleOrder(top, letter);
  }

  /** Letters and numbers do not cue each other. */
  lemma MixedCallsNeverWarn(c: Chain, call: Call)
    requires c.yours != "" && call.position != ""
    requires (IsDigit(c.yours[0]) && !IsDigit(call.position[0])) || (IsAlpha(c.yours[0]) && !IsAlpha(call.position[0]))
    ensures !Warns(c, call)
  {}

  /** A call without a position changes nothing and warns of nothing. */
  lemma BlankCallsDoNothing(c: Chain, call: Call)
    requires forall ch | ch in call.position :: IsSpace(ch)
    ensures Noted(c, call) == c && !Warns(c, call)
  {}

  /** A target called again after more than twenty seconds starts over, and within them goes on;
      every other target idle for longer is forgotten at that call, and the rest are kept. */
  lemma IdleChainsExpire(entries: map<string, Entry>, call: Call, target: string)
    ensures ChainOf(entries, call) ==
      if call.recipient in entries && call.time - entries[call.recipient].updatedAt <= 20
      then entries[call.recipient].chain else Chain("", "")
    ensures var after := Observed(entries, call);
      if target == call.recipient then target in after && after[target].updatedAt == call.time
      else (target in after <==> target in entries && call.time - entries[target].updatedAt <= 20) &&
           (target in after ==> after[target] == entries[target])
  {}
}
