/** The parser chain's walk over one line: first match wins, and every line is announced once. */
module Pipeline {
  import opened Options

  type Parser = int

  datatype LineInfo = LineInfo(message: string, timestamp: int, lineNumber: nat)

  /** What asking a parser came to; one that raises is logged and the next is asked. */
  datatype Verdict = Consumed | Passed | Raised

  const ROT := "Your body begins to rot.  You have taken "
  const EARDRUMS := "Your eardrums rupture.  You have taken "

  /** Death messages that end in a number are cut to their first sentence. */
  function Rewritten(message: string): string {
    if ROT <= message then "Your body begins to rot."
    else if EARDRUMS <= message then "Your eardrums rupture." else message
  }

  lemma RewritingIsIdempotent(message: string)
    ensures Rewritten(Rewritten(message)) == Rewritten(message)
  {
    assert |"Your body begins to rot."| < |ROT| && |"Your body begins to rot."| < |EARDRUMS|;
    assert |"Your eardrums rupture."| < |ROT| && |"Your eardrums rupture."| < |EARDRUMS|;
  }

  /** A death message with a number at its end is cut to its first sentence, whatever follows; any
      other message is left as it is. */
  lemma RewritingCutsToTheFirstSentence(message: string)
    ensures var r := Rewritten(message);
      if "Your body begins to rot.  You have taken " <= message || "Your eardrums rupture.  You have taken " <= message
      then r <= message && r != "" && r[|r| - 1] == '.' && '.' !in r[..|r| - 1]
      else r == message
  {
    assert ROT[..24] == "Your body begins to rot." && EARDRUMS[..22] == "Your eardrums rupture.";
    assert "Your body begins to rot."[..23] == "Your body begins to rot";
    assert "Your eardrums rupture."[..21] == "Your eardrums rupture";
    if ROT <= message { assert message[..24] == ROT[..24]; }
    else if EARDRUMS <= message { assert message[..22] == EARDRUMS[..22]; }
  }

  /** The verdicts on one line. */
  function On(verdict: (Parser, LineInfo) -> Verdict, info: LineInfo): Parser -> Verdict { p => verdict(p, info) }

  /** The parsers asked: the chain up to the first that consumes. */
  function Asked(chain: seq<Parser>, verdict: Parser -> Verdict): seq<Parser> {
    if chain == [] then []
    else if verdict(chain[0]) == Consumed then [chain[0]]
    else [chain[0]] + Asked(chain[1..], verdict)
  }

  predicate Consumes(chain: seq<Parser>, verdict: Parser -> Verdict) {
    exists i | 0 <= i < |chain| :: verdict(chain[i]) == Consumed
  }

  /** The parsers asked are a prefix of the chain in which only the last may consume, and the
      whole chain when none does. */
  lemma {:induction false} AskedIs(chain: seq<Parser>, verdict: Parser -> Verdict, asked: seq<Parser>)
    ensures asked == Asked(chain, verdict) <==>
      asked <= chain
      && (forall i | 0 <= i < |asked| - 1 :: verdict(asked[i]) != Consumed)
      && (asked == chain || (asked != [] && verdict(asked[|asked| - 1]) == Consumed))
  {
    if chain != [] {
      AskedIs(chain[1..], verdict, if asked == [] then [] else asked[1..]);
      AskedIs(chain[1..], verdict, Asked(chain[1..], verdict));
      assert chain == [chain[0]] + chain[1..];
      if asked != [] { assert asked == [asked[0]] + asked[1..]; }
    }
  }

  /** A parser appended to the chain sees exactly the lines no other consumes. */
  lemma {:induction false} AppendedSeesTheRest(chain: seq<Parser>, verdict: Parser -> Verdict, p: Parser)
    ensures Asked(chain + [p], verdict) == Asked(chain, verdict) + if Consumes(chain, verdict) then [] else [p]
  {
    if chain == [] {
    } else {
      assert (chain + [p])[1..] == chain[1..] + [p];
      AppendedSeesTheRest(chain[1..], verdict, p);
      assert verdict(chain[0]) != Consumed ==> (Consumes(chain, verdict) <==> Consumes(chain[1..], verdict)) by {
        assert forall i | 0 < i < |chain| :: chain[i] == chain[1..][i - 1];
      }
    }
  }

  class LogPipeline {
    var parsers: seq<Parser>
    var lineCounter: nat
    var lastEntryTime: Option<int>
    var lastYouActivity: Option<int>

    constructor (chain: seq<Parser>)
      ensures parsers == chain && lineCounter == 0 && lastEntryTime == None && lastYouActivity == None
    {
      parsers, lineCounter, lastEntryTime, lastYouActivity := chain, 0, None, None;
    }

    /** One line: `parsed` is what the line parser makes of it, `now` the wall clock. */
    method Process(parsed: Option<(string, int)>, now: int, verdict: (Parser, LineInfo) -> Verdict)
      returns (asked: seq<Parser>, published: seq<LineInfo>)
      modifies this
      ensures parsers == old(parsers) && lineCounter == old(lineCounter) + 1
      ensures parsed.None? ==>
        && asked == [] && published == []
        && lastEntryTime == old(lastEntryTime) && lastYouActivity == old(lastYouActivity)
      ensures parsed.Some? ==>
        var info := LineInfo(Rewritten(parsed.value.0), parsed.value.1, lineCounter);
        && asked == Asked(parsers, On(verdict, info)) && published == [info]
        && lastEntryTime == Some(info.timestamp)
        && lastYouActivity == if "You" <= info.message then Some(now) else old(lastYouActivity)
    {
      lineCounter := lineCounter + 1;
      if parsed == None { return [], []; }
      var info := LineInfo(Rewritten(parsed.value.0), parsed.value.1, lineCounter);
      if "You" <= info.message { lastYouActivity := Some(now); }
      lastEntryTime := Some(info.timestamp);
      asked := WalkChain(parsers, On(verdict, info));
      published := [info];
    }

    /** The walk itself, over the live chain. */
    static method WalkChain(chain: seq<Parser>, verdict: Parser -> Verdict) returns (asked: seq<Parser>)
      ensures asked == Asked(chain, verdict)
    {
      asked := [];
      for n := 0 to |chain|
        invariant asked == chain[..n]
        invariant forall i | 0 <= i < n :: verdict(chain[i]) != Consumed
      {
        asked := asked + [chain[n]];
        if verdict(chain[n]) == Consumed { break; }
      }
      AskedIs(chain, verdict, asked);
    }
  }
}
