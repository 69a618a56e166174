# nParse+ core: a verified model

nParse+ tails an EverQuest log on one driver thread and feeds services from it. This
project models the stateful pieces of its `core` package in Dafny and proves what they
keep over every run:

- **Damage meter** (`BestWindow`, `FightValues`, `Fights`, `FightTracker`, `FightRuns`,
  `FightLedger`, `FightRowLedger`, `FightEffects`): classes that update rows, fights and
  the tracker in place, each proved against a specification on values; what each call of
  that specification does, from what goes into it; and theorems about it over all runs.
- **Driver and parser chain** (`Driver`, `DriverChain`, `Pipeline`): the command inbox, the
  gate and the live chain as interleaved atomic steps; the walk over one line as a class.
- **Log tail and rotation** (`TailValues`, `TailLines`, `TailSignature`, `LogTail`,
  `Rotation`, `ArchiveService`): the tail as a class; client, driver, staging copy and swap
  as interleaved steps over bytes.
- **Ini files and socials** (`Text`, `EqIni`, `FileText`, `LineGrammar`, `FileLaws`,
  `SocialKeys`, `SocialValues`, `SocialLines`, `SocialReading`, `SocialWriter`,
  `SocialMerge`, `SocialRoundTrip`, `SocialWriting`, `SocialFrame`, `SocialFiles`,
  `Socials`): the section lens, the key-level writer and the tolerant reader.
- **The mirror of socials** (`StoreValues`, `StoreLaws`, `StoreRuns`, `StorePush`,
  `SocialStore`): whose each social is, over syncs, saves and restores.
- **Smaller machines** (`ChChain`, `ChCalls`, `Sharing`, `Saver`, `Scanners`, `Splitting`,
  `ScannerLaws`).

`dafny verify dfyconfig.toml` checks everything.

Times and damages are integers. `casefold` is an arbitrary function on strings. Text is
Python text with ASCII blanks, letters and digits; `upper()` against the `*NULL*`
sentinel is modelled by comparing in lower case, which is the same over ASCII. Slots are
natural numbers. A digest is the content it is taken of, so two digests are equal exactly
when the contents are.

## What the proofs found

The code departs from what its comments, or a first reading, suggest in these places; the
model follows the code, and each has a lemma with the case or the exact condition.

- Hits out of time order make the sliding best window miss the true maximum
  (`BestWindow.UnorderedHitsMissTheMaximum`); in log order it is the maximum.
- Normalising socials is not idempotent, because lines are cut after trailing blanks are
  dropped, and values that spell the sentinel read back as nothing; a written list reads
  back unchanged exactly when neither happens
  (`SocialRoundTrip.ExactlyFaithfulWritesReadBack`).
- A file that numbers lines from `Line0` can have the last line of an untouched slot cut
  by a write to another slot (`SocialFrame.LineZeroCanBeCut`,
  `SocialFrame.OtherSlotsReadTheSame`).
- A save marks what five lines keep and reads back what the file gives. A sentinel, or a
  blank fifth line that the second normalising drops, makes the two differ, and the slot is
  taken for the game's (`StorePush.PushedSlotKeepsItsOrigin`,
  `StorePush.SentinelLosesTheOrigin`, `StorePush.BlankFifthLineLosesTheOrigin`). A sixth
  line does not: the push cuts it first.
- For the same reason a push drops a sixth line even in a file whose own number allows it
  (`SocialFiles.PushesReadBackWhole`).
- The archive's reported loss leaves out what the client writes after the catch-up read,
  and what it writes before that read when the log had not grown by the measurement or the
  read is full (`Rotation.ArchiveIsThePrefix`, `Rotation.AByteCanGoUnreported`).
- The archive tick looks at its list and submits a sweep in separate steps, so a sweep
  that outlives the check interval can have its copies overwritten
  (`ArchiveService.SafeExactlyWhenNeverAtRisk`).
- A log emptied and refilled with the bytes the tail remembers is not noticed
  (`TailValues.RefillCanCollide`); any other refill is (`TailSignature.RefillIsNoticed`).
- A lettered chain of Complete Heals goes round only from Z, so one of fewer than 26
  callers never warns its first (`ChChain.WarnsOncePerRotation`); and a call without a
  position, which counts as number 0, warns the first of a numbered chain
  (`ChCalls.AnyNumberedCall`).

## Model

| member | source | states |
|---|---|---|
| BestWindow.BestIsMaximum | src/nparseplus/core/dps.py:221-292 | For time-ordered, non-negative hits and a positive window, what the sweep carries as best is reached by some stretch of hits with t_j - t_i < window and exceeded by none |
| BestWindow.UnorderedHitsMissTheMaximum | src/nparseplus/core/dps.py:221-261 | A concrete unordered list for which the sweep's best is below the maximum: time order is needed |
| BestWindow.DropsAreBounded | src/nparseplus/core/dps.py:248-258 | Under one window the left edge never moves back and never passes the hit it is swept with, so it advances at most once a hit over all hits |
| BestWindow.SweepOn | src/nparseplus/core/dps.py:221-261 | Adding a hit to a swept list and sweeping on from the cached left edge and sum gives the sweep of the longer list, in any hit order |
| BestWindow.CarriedIsNoMore | src/nparseplus/core/dps.py:263-292 | A best carried over from before, under the same window, is never more than a rescan finds |
| BestWindow.TrailingIsSince | src/nparseplus/core/dps.py:193-219 | For time-ordered hits, the backward walk of the trailing sum adds up exactly the hits at or after the cutoff, the cutoff included |
| Fights.FightEntity.constructor | src/nparseplus/core/dps.py:123-178 | A row starts with no hits, no readings and the given window |
| Fights.FightEntity.AddDamage | src/nparseplus/core/dps.py:180-186 | The hit is appended with its running totals, and the trailing sum and the best window are brought up to the hit's time |
| Fights.FightEntity.UpdateLevel | src/nparseplus/core/dps.py:188-191 | The highest level guess is kept |
| Fights.FightEntity.UpdateTrailing | src/nparseplus/core/dps.py:193-219 | On a live row adopts the window and recomputes trailing and best; a dead row keeps its readings |
| Fights.FightEntity.UpdateBestWindow | src/nparseplus/core/dps.py:221-261 | The incremental update leaves the best a full rescan of all hits would, whatever the order of the hits |
| Fights.FightEntity.RescanBestWindow | src/nparseplus/core/dps.py:263-292 | The rescan measures every hit under the current window, and forgets a best taken under another |
| Fights.MeasureAll | src/nparseplus/core/dps.py:263-292 | The two-pointer loop over all hits returns the sweep's left edge, sum and best |
| Fights.TakeNewest | src/nparseplus/core/dps.py:244-261 | One hit taken into the running window: the edge advances past hits the window has left and the sum is that of the rest |
| Fights.TrailingSum | src/nparseplus/core/dps.py:211-219 | The reversed loop that stops at the first hit before the cutoff returns the trailing sum |
| FightTracker.Fight.AddDamage | src/nparseplus/core/dps.py:353-376 | Lands the hit on the attacker's row, found or added, folded by name |
| FightTracker.Fight.MarkDead | src/nparseplus/core/dps.py:378-384 | Stamps the fight and all its rows |
| FightTracker.Fight.IsStale | src/nparseplus/core/dps.py:386-402 | True exactly when the whole group has been quiet for longer than the retention, the fight's start included |
| FightTracker.FightTracker.constructor | src/nparseplus/core/dps.py:521-555 | An empty meter with no cast noted |
| FightTracker.FightTracker.NoteYourCast | src/nparseplus/core/dps.py:700-724 | Keeps the latest landing time of the casts noted |
| FightTracker.FightTracker.CancelYourCast | src/nparseplus/core/dps.py:726-742 | Forgets the landing time |
| FightTracker.FightTracker.ActiveFight | src/nparseplus/core/dps.py:690-698 | The live fight against the folded target, if any |
| FightTracker.FightTracker.Attribute | src/nparseplus/core/dps.py:769-816 | The method takes the decision of `FightValues.Attribute`; what that decides is `FightEffects.WhoIsCredited` |
| FightTracker.FightTracker.AddDamage | src/nparseplus/core/dps.py:852-884 | The whole step of a damage line: credit, open or find the fight, land the hit, spread the level |
| FightTracker.FightTracker.EndFight | src/nparseplus/core/dps.py:886-899 | The loop applies `FightValues.EndFights` and reports whether any fight was live against the victim; what that does is `FightEffects.EndingKills` |
| FightTracker.FightTracker.Clear | src/nparseplus/core/dps.py:901-913 | Drops all fights and the landing time |
| FightTracker.FightTracker.Tick | src/nparseplus/core/dps.py:915-934 | Refreshes every row and retires the quiet groups |
| FightValues.RetireIsFilter | src/nparseplus/core/dps.py:925-934 | Retiring keeps exactly the groups that have rows and are not stale |
| FightRuns.Lifecycle | src/nparseplus/core/dps.py:353-402 | In every run from an empty meter: at most one live fight per folded target, a fight is dead iff every row of it is, and no fight is without rows |
| FightRuns.DeadRowsAreFrozen | src/nparseplus/core/dps.py:198-204 | For as long as a dead fight is shown its hits, trailing, best, divisor and dps never change, at any later time (only a row's level may); and no run drops an attacker or a hit from a fight that is still shown |
| FightRuns.RunSound | src/nparseplus/core/dps.py:852-934 | Every run keeps the tracker's invariant and evolves each surviving fight only by the allowed changes |
| FightLedger.LeavesOnlyWhenStale | src/nparseplus/core/dps.py:901-934 | A fight leaves in a step if and only if the step clears the meter, or is a tick at which the whole group is stale |
| FightLedger.StepLedger | src/nparseplus/core/dps.py:852-884 | One step moves a fight's total by exactly what it credits to that fight |
| FightLedger.Ledger | src/nparseplus/core/dps.py:339-341 | In every run, a fight's total is the sum of the events credited to it |
| FightEffects.WhoIsCredited | src/nparseplus/core/dps.py:769-884 | In every run: melee lands on whoever swung, under all sources; a spell changes nothing when only melee counts; a spell of "You" lands on You while a standing cast covers it; what is left changes nothing unless all sources count, and then lands on its attacker, or on "(spell damage)" for a cold "You" |
| FightEffects.AllSourcesLoseNothing | src/nparseplus/core/dps.py:769-884 | With all sources counted, an event that names an attacker other than its target lands, on the attacker it names unless it is a cold "You" spell |
| FightEffects.CreditedLands | src/nparseplus/core/dps.py:852-884 | Landing, row by row: the one live fight against the folded target or a new one has the hit on the one row of the folded attacker, measured at the hit's time under the window in force; a level guess reaches that row and every row whose target the attacker is; nothing else changes |
| FightRowLedger.CreditedEventLands | src/nparseplus/core/dps.py:852-884 | Under any sources, every event credited to someone lands so |
| FightRowLedger.StepHits | src/nparseplus/core/dps.py:353-376 | One step adds to each row exactly the hits it credits to that fight under that folded attacker |
| FightRowLedger.RowLedger | src/nparseplus/core/dps.py:353-376 | In every run, the hits on a row are exactly the events credited to that fight under that folded attacker, in order, and its total is what they add up to; an attacker without a row was credited none |
| FightLedger.ArmedByACast | src/nparseplus/core/dps.py:700-742 | The landing time covers an instant iff some cast since the last cancel or clear lands at or after it |
| FightLedger.YoursIffACastCovers | src/nparseplus/core/dps.py:744-816 | A non-melee "You" line is yours iff some standing cast's landing plus the credit window now in force has not passed |
| FightLedger.BestIsTheMaximum | src/nparseplus/core/dps.py:221-292 | In every run in log order each row's best is the maximum over the stretches of its own hits inside one window |
| FightLedger.TrailingAfterTick | src/nparseplus/core/dps.py:193-219 | In every run in log order, right after a tick a live row's trailing sum is all its damage since the cutoff |
| FightEffects.EndingKills | src/nparseplus/core/dps.py:886-895 | A death line stamps every live fight against its folded victim and all their rows, leaves none alive, and touches no other fight; a blank victim touches none |
| FightEffects.TickRefreshes | src/nparseplus/core/dps.py:915-924 | After a tick every live row follows the window in force and is measured at the tick; dead rows stay as they were |
| FightEffects.TickDropsTheQuiet | src/nparseplus/core/dps.py:386-402 | In any order of hits, a tick drops a fight iff retirement is on, the fight began longer ago than the retention, and the newest hit of every row is older than it |
| FightEffects.StaysWhileStruck | src/nparseplus/core/dps.py:386-402 | In every run in log order, a fight is there after a tick iff retirement is off or some hit on its target, by anybody, is no older than the retention |
| FightEffects.RunBegun | src/nparseplus/core/dps.py:353-376 | In every run rows are keyed by their attacker's folded name and start at their first hit, and a fight starts with its first row |
| FightEffects.RatesAre | src/nparseplus/core/dps.py:298-324 | Seconds, dps over the fight and dps over the window are the whole quotients, and zero where there is nothing to divide or divide by |
| FightEffects.HighestIs | src/nparseplus/core/dps.py:180-186 | The highest hit bounds every hit and is one of them, or zero |
| Driver.RunInv | src/nparseplus/core/driver.py:120-161 | Every interleaving keeps: gate open iff a driver lives, every submission in one place, and the walk in step with the chain |
| Driver.EveryCommandAccountedFor | src/nparseplus/core/driver.py:184-260 | In every interleaving each submission has run exactly once or waits in one place, and the driver runs what it took in the order it was accepted |
| Driver.ShutGateMeansDrained | src/nparseplus/core/driver.py:311-345 | Once the gate is shut the inbox is empty and all that was accepted has run |
| Driver.CallersRunAlone | src/nparseplus/core/driver.py:184-224 | No command runs on a caller while a driver thread can still run anything |
| Driver.ChainIsStableWithinALine | src/nparseplus/core/pipeline.py:61-127 | Every line asks exactly the chain as it stood at line start, in order, up to the first that consumes it; every well-formed line publishes once |
| Driver.NothingMutatesTheChainMidLine | src/nparseplus/core/pipeline.py:61-93 | Inside a line no step of any thread changes the chain |
| Driver.UnwindFinishes | src/nparseplus/core/driver.py:311-345 | Left to itself in its final drain, the driver runs all that was accepted and shuts the gate |
| DriverChain.ChainStep | src/nparseplus/core/pipeline.py:61-93 | A step that runs an append puts that parser last, one that runs a remove takes out its first occurrence, and no other step changes the chain |
| DriverChain.AppendedSeesOnlyTheRest | src/nparseplus/core/pipeline.py:61-71 | In every schedule, once a command has appended a parser every later line asks those before it first and it exactly when none of them consumed the line, until something is removed |
| DriverChain.RemovedIsNotAsked | src/nparseplus/core/pipeline.py:73-87 | In every schedule, a parser on the chain once is asked by no line after a command has removed it, until it is appended again |
| DriverChain.PolledLinesAreProcessed | src/nparseplus/core/driver.py:347-358 | In every schedule without a crash, every line polled is processed once, in order, before the next poll |
| DriverChain.StopIsHonoured | src/nparseplus/core/driver.py:311-320 | Stopping and between iterations, the loop polls and processes nothing more until it is started again |
| DriverChain.PollsAreDrained | src/nparseplus/core/driver.py:347-355 | In every schedule the one way into a poll is through an inbox found empty, when everything accepted has run |
| DriverChain.StoppingPollsAtMostOnce | src/nparseplus/core/driver.py:131-161 | An iteration under way when a stop is asked for polls no second time |
| DriverChain.StartedDriversPoll | src/nparseplus/core/driver.py:120-129 | A driver that is started forgets an earlier stop, takes commands, and goes on to poll |
| DriverChain.LinesGoOn | src/nparseplus/core/pipeline.py:118-127 | Inside a line exactly one thing can be done: ask the next parser, or publish once one consumed the line or none is left |
| DriverChain.DriversAreNeverStuck | src/nparseplus/core/driver.py:311-372 | In every schedule a driver that lives has a step to take |
| Pipeline.AskedIs | src/nparseplus/core/pipeline.py:118-123 | The parsers asked are the prefix of the chain in which only the last may consume, and the whole chain when none does |
| Pipeline.AppendedSeesTheRest | src/nparseplus/core/pipeline.py:61-71 | A parser at the end of a chain is asked exactly about the lines no other consumes |
| Pipeline.RewritingIsIdempotent | src/nparseplus/core/pipeline.py:27-30 | Rewriting a death message twice is rewriting it once |
| Pipeline.RewritingCutsToTheFirstSentence | src/nparseplus/core/pipeline.py:27-31 | The two death messages are cut after their first full stop, whatever follows, and no other message is changed |
| Pipeline.LogPipeline.Process | src/nparseplus/core/pipeline.py:95-127 | Counts the line, and if it parses asks the chain, records the times and publishes it once |
| Pipeline.LogPipeline.WalkChain | src/nparseplus/core/pipeline.py:118-123 | The early-breaking loop asks exactly the specified parsers |
| LogTail.LogTail.Attach | src/nparseplus/core/logfile.py:93-111 | The tail starts after the last marker's line in the last 4096 bytes, or at their end, remembering up to 64 bytes before it, in agreement with the file |
| LogTail.LogTail.Restart | src/nparseplus/core/logfile.py:113-117 | Back to the top of an unknown file |
| LogTail.LogTail.Poll | src/nparseplus/core/logfile.py:119-162 | An unreadable file changes nothing; otherwise the state and the lines are those of one poll, which goes on remembering up to 64 bytes, and starting over yields the whole non-blank lines of the file |
| LogTail.ReadBack | src/nparseplus/core/logfile.py:126-147 | Reads on from the position iff the bytes before it are the ones remembered; otherwise the whole file is new |
| LogTail.CutLines | src/nparseplus/core/logfile.py:149-162 | Hands on the lines up to the last line feed and keeps the rest |
| LogTail.StartOffset | src/nparseplus/core/logfile.py:100-111 | The offset right after the line of the last marker, or the end |
| TailValues.NoFalseRestart | src/nparseplus/core/logfile.py:119-162 | An append-only file is never taken for another one; a poll reads to its end, and its signature stays the slice before the position |
| TailValues.NoRestartMeansVerified | src/nparseplus/core/logfile.py:126-147 | A poll does not restart iff the file reaches the position and the bytes before it are the ones remembered |
| TailValues.RefillCanCollide | src/nparseplus/core/logfile.py:119-147 | A file emptied and refilled with the same bytes before the position is not noticed |
| TailSignature.RefillIsNoticed | src/nparseplus/core/logfile.py:119-147 | A log polled as it grew and then replaced: if what is there ends before the position, or differs in any of the last 64 bytes before it, the next poll starts at the top and yields all of the new file's whole non-blank lines |
| TailSignature.RestartsOnADifference | src/nparseplus/core/logfile.py:126-147 | A poll starts over iff the file ends before the position or differs within the bytes remembered |
| TailSignature.GrowthRemembers | src/nparseplus/core/logfile.py:150-152 | Over any number of polls of a growing file the tail remembers exactly the last 64 bytes passed since it began, or all of them |
| TailSignature.PollRemembersItsData | src/nparseplus/core/logfile.py:150-152 | A poll that reads anything remembers at least that many of the file's last bytes, up to 64 |
| TailLines.BreaksEndLines | src/nparseplus/core/logfile.py:153-162 | A line feed, a carriage return, or both as one end a line |
| TailLines.TheRestIsALine | src/nparseplus/core/logfile.py:153-162 | What is left without a break is a line too, unless it is empty |
| TailLines.YieldsItsLines | src/nparseplus/core/logfile.py:153-162 | Only whole lines that are not empty are handed on, and all of them unless there is nothing visible in them |
| TailValues.SplitAtLineFeed | src/nparseplus/core/logfile.py:149-159 | Cutting after a line feed splits no line, CR LF included |
| TailValues.CutsDoNotShow | src/nparseplus/core/logfile.py:119-162 | However an append-only file is cut into polls, the non-blank lines yielded are those of the whole stream |
| Rotation.RunInv | src/nparseplus/core/logarchive.py:90-192 | Every interleaving of appends, polls, stagings, swaps and failures keeps the tail, the copy and the closed epochs in order |
| Rotation.DeliveryIsContiguous | src/nparseplus/core/driver.py:167-180 | In every run each epoch delivers one contiguous stretch of its file's bytes, the first from the attach offset and every later one from 0, nothing twice and nothing skipped inside |
| Rotation.PollReadsToTheEnd | src/nparseplus/core/driver.py:347-372 | A poll leaves nothing of the file unread |
| Rotation.ArchiveIsThePrefix | src/nparseplus/core/logarchive.py:140-192 | Each archive is the prefix of its log of length copied plus catch-up, and the report never exceeds what is missing; with `early` bytes written between measuring and reading and `late` bytes after, the report is the exact remainder iff late = 0 and (early = 0, or the measurement saw growth and all of it fits the limit), and the archive is the whole log iff late = 0, (early = 0 or the measurement saw growth) and all of it fits the limit |
| Rotation.AByteCanGoUnreported | src/nparseplus/core/logarchive.py:159-175 | Any log not grown since its copy can lose a byte with a report of zero, written just before the read that is then not made, or just after it |
| Rotation.NothingStagedIsLost | src/nparseplus/core/logarchive.py:90-192 | At every step and failure each staged byte is in the live log, the partial or the archive, only the truncation shortens the log, and what failures leave on disk stays there and is the start of the log or of an archived one |
| Rotation.CopiesAreWhole | src/nparseplus/core/logarchive.py:90-103 | In every run a copy is done only when it holds all of the log there is |
| Rotation.FailuresLeaveTheirCopies | src/nparseplus/core/logarchive.py:131-173 | A failure leaves the log, the tail and the archives alone, and on disk the copy it could not delete and the one sealed already |
| ArchiveService.NothingStagedIsLost | src/nparseplus/core/logarchive.py:227-254 | In every run in which no tick comes due over a sweep still running or just handed over, a sweep only hands over to an empty list, and every copy found is swapped in order or still waiting |
| ArchiveService.SafeExactlyWhenNeverAtRisk | src/nparseplus/core/logarchive.py:227-254 | For every run from the start: no tick of it is at risk iff from no point of it can a copy be lost before another tick decides |
| ArchiveService.PromptIsNeverAtRisk | src/nparseplus/core/logarchive.py:231-254 | If every tick that saw a sweep running reads the clock within the interval of that sweep's check, no tick is at risk |
| ArchiveService.LosesExactlyWhenAtRisk | src/nparseplus/core/logarchive.py:231-254 | From a sound state, a copy can be lost before another tick decides iff this tick came due over a sweep still running or just handed over |
| ArchiveService.ALongSweepLosesItsCopies | src/nparseplus/core/background.py:62-90 | A schedule in which a sweep outlives the interval and its copies are overwritten |
| ArchiveService.DueHourly | src/nparseplus/core/logarchive.py:241-246 | A tick comes due iff the archive is enabled and no check was made within 3600 seconds |
| ArchiveService.ChecksAreSpaced | src/nparseplus/core/logarchive.py:241-246 | In every run the ticks that come due are at least 3600 seconds apart |
| ArchiveService.DisabledSweepsNothing | src/nparseplus/core/logarchive.py:241-242 | While it is disabled no sweep starts and no copy is found |
| ArchiveService.OneSwapATick | src/nparseplus/core/logarchive.py:231-240 | A tick that finds copies waiting takes the first, and nothing else |
| ArchiveService.SweepsRunOneAtATime | src/nparseplus/core/background.py:61-78 | A due tick starts a sweep iff none is in flight and the thread can be had, and touches no copy |
| ArchiveService.FailedSweepsTouchNothing | src/nparseplus/core/background.py:84-90 | A sweep that fails leaves the copies alone and the job free |
| EqIni.SectionBounds | src/nparseplus/core/eqini.py:66-83 | The loop finds the first header of the name and the next header after it |
| EqIni.PutGet | src/nparseplus/core/eqini.py:95-111 | A body written is the body read back, exactly when no line of it opens a section |
| EqIni.GetPut | src/nparseplus/core/eqini.py:86-111 | Writing back the body that is there changes nothing |
| EqIni.PutPut | src/nparseplus/core/eqini.py:95-111 | Only the last body written counts |
| EqIni.OthersKept | src/nparseplus/core/eqini.py:95-111 | A section by any other name keeps its body, but for the blank line added before an appended section |
| EqIni.SplitJoined | src/nparseplus/core/eqini.py:114-127 | Joining a key and a trimmed value is undone by splitting |
| EqIni.SplitGivesKey | src/nparseplus/core/eqini.py:114-127 | What splits as a key is one: trimmed, no equals sign, no comment mark |
| EqIni.BlankHasNoKey | src/nparseplus/core/eqini.py:114-127 | A blank line has no key and opens no section |
| LineGrammar.StripIs | src/nparseplus/core/eqini.py:114-127 | Stripping takes the blanks off both ends and nothing else |
| LineGrammar.CharactersAre | src/nparseplus/core/eqini.py:114-127 | Which characters are blank, and what lower case is |
| LineGrammar.KeyValueGrammar | src/nparseplus/core/eqini.py:114-127 | A line has a key and value iff something visible that opens with no comment mark or bracket stands before its first equals sign; they are the two sides without the blanks at their ends |
| LineGrammar.KeyGrammar | src/nparseplus/core/socials.py:58-58 | A text names a key iff it is, in any case, Page and a number, Button and a number, and Name, Color, or Line and a number |
| LineGrammar.DecimalIsShortest | src/nparseplus/core/socials.py:260-268 | Numbers are written without leading zeros |
| LineGrammar.KeysAreSpelled | src/nparseplus/core/socials.py:260-268 | A new key is written PageNButtonM and then Name, Color or LineK |
| LineGrammar.SignedNumbers | src/nparseplus/core/socials.py:197-201 | A sign may stand before a colour's number |
| LineGrammar.NotANumber | src/nparseplus/core/socials.py:197-201 | Anything but digits and underscores past the first character makes it none |
| FileLaws.SectionStandsInItsFile | src/nparseplus/core/eqini.py:66-103 | A section is what stands between the first line that heads it, in any case, and the next that opens one; replacing it changes that and nothing else, its header included |
| FileLaws.MissingSectionIsAppended | src/nparseplus/core/eqini.py:95-111 | A missing section reads as nothing and is written at the end, set off by one blank line unless the file is empty or ends in one |
| FileLaws.TextSplits | src/nparseplus/core/eqini.py:34-44 | Each of Python's line breaks ends a line, CR LF as one |
| FileText.JoinedLinesReadBack | src/nparseplus/core/eqini.py:34-54 | Lines written are the lines read back, exactly when there are some and none holds a break of its own |
| FileLaws.NewlinesStay | src/nparseplus/core/eqini.py:47-63 | A write leaves nothing but CR LF in a file that had one anywhere, and no carriage return in any other |
| SocialKeys.ParseKeyText | src/nparseplus/core/socials.py:58-58 | The canonical spelling of a key reads back as that key |
| SocialKeys.SpellingIsUnique | src/nparseplus/core/socials.py:308-332 | Whatever spells a key but for case reads as that key |
| SocialValues.NormalizeSocials | src/nparseplus/core/socials.py:226-247 | The loop keeps each slot's last social that is not empty once cleaned, and sorts by slot |
| SocialValues.BySlotIsClean | src/nparseplus/core/socials.py:226-247 | What normalising keeps is trimmed, in colour range, within the line cap and not empty, under its own slot |
| SocialValues.InOrderMembers | src/nparseplus/core/socials.py:247-247 | Slot order lists every social of the table, each under its slot |
| SocialValues.InOrderAscends | src/nparseplus/core/socials.py:247-247 | Slots strictly rise |
| SocialValues.CleanAgain | src/nparseplus/core/socials.py:234-245 | Cleaning a clean social only drops blank lines at its end |
| SocialValues.CleaningTwiceDiffers | src/nparseplus/core/socials.py:226-247 | Normalising is not idempotent: a cut can expose a blank last line |
| SocialReading.CleanIs | src/nparseplus/core/socials.py:226-247 | Cleaning trims name and lines, brings the colour within 0 and 255, drops the blank lines at the end and then keeps the first lines up to the cap; these determine it |
| SocialReading.LastSocialWins | src/nparseplus/core/socials.py:226-247 | Normalising keeps for each slot the last social that shows anything once cleaned |
| SocialReading.LastLineWins | src/nparseplus/core/socials.py:176-205 | A key set more than once has the value of its last line |
| SocialReading.SocialSays | src/nparseplus/core/socials.py:176-210 | A slot's social has the name and colour last set, nothing for the sentinel and 13 for no number, and the lines last set in the order of their numbers, all of them |
| SocialReading.MostLines | src/nparseplus/core/socials.py:214-222 | A file is read with as many lines as its highest line number, and never fewer than five |
| SocialReading.ReadingIs | src/nparseplus/core/socials.py:169-223 | A slot is read iff what the section says of it, cleaned, shows anything, and as that |
| SocialReading.ReadsInSlotOrder | src/nparseplus/core/socials.py:223-247 | The socials read are those of the slots read, by page and then by button |
| SocialMerge.MergeTracks | src/nparseplus/core/socials.py:312-337 | The merge loop's invariant: a wanted value is still to be written or is what the lines say; every other key is as it was, or cleared |
| SocialRoundTrip.DesiredSays | src/nparseplus/core/socials.py:250-268 | The pairs wanted say what each social writes for each of its keys and nothing about other slots |
| SocialRoundTrip.WriteSets | src/nparseplus/core/socials.py:292-343 | After a write every key of a written slot has what its social writes and every other key what clearing leaves it; both are spelled out by `SocialWriting.WritesEveryKey` |
| SocialWriting.WritesEveryKey | src/nparseplus/core/socials.py:250-343 | After a write: a name or colour that says nothing is there iff the section carried its key, lines are numbered from 1; an unwritten slot keeps every key, or when cleared has none, except that its name stays as the sentinel iff some social key of the section was the sentinel |
| SocialWriting.WritesEveryLine | src/nparseplus/core/socials.py:312-343 | Line by line: a line of no social stays; the first line of a wanted key takes the new value in its own spelling and place, others of written slots go; lines of other slots stay or are cleared; then the new keys by slot and field, in canonical spelling; then the blanks popped off the end, reversed |
| SocialRoundTrip.WrittenSlotReads | src/nparseplus/core/socials.py:169-223 | A written slot's keys read as its social, its lines in order and within the file's highest line number |
| SocialRoundTrip.OwnedSlotsReadBack | src/nparseplus/core/socials.py:292-349 | With or without clearing, a written slot reads back as its social, less what the sentinel and trailing blanks take |
| SocialRoundTrip.ClearingWriteReadsBack | src/nparseplus/core/socials.py:292-349 | With the missing slots cleared, the section reads back as exactly the socials written |
| SocialRoundTrip.ExactlyFaithfulWritesReadBack | src/nparseplus/core/socials.py:226-349 | The read-back list is the normalised list iff no value is the sentinel and no cut exposed a blank last line |
| SocialFrame.OtherKeysKept | src/nparseplus/core/socials.py:292-337 | A merging write leaves every key of every other slot as it was |
| SocialFrame.OtherSlotsReadTheSame | src/nparseplus/core/socials.py:169-223 | An unwritten slot reads as before iff it was not read as anything, or its lines fit the cap the file will have, or the cap stays; the cap is computed from the file and the socials before the write |
| SocialFrame.MaxLineAfterWrite | src/nparseplus/core/socials.py:292-349 | After a write the highest line number is the larger of the highest on an unwritten slot's keys and the length of the longest social written |
| SocialFrame.SlotsWithoutLineZeroReadTheSame | src/nparseplus/core/socials.py:169-223 | An unwritten slot without a Line0 always reads as before |
| SocialFrame.LineZeroCanBeCut | src/nparseplus/core/socials.py:214-222 | A concrete file in which writing one slot cuts the last line another is read with |
| SocialFrame.ForeignLinesKept | src/nparseplus/core/socials.py:312-343 | Every line that is neither a written slot's key nor cleared stays, character for character and in order, but for a stretch of blank lines at the end that is reversed |
| SocialFiles.FileHoldsWhatWasWritten | src/nparseplus/core/socials.py:292-349 | The file written splits into exactly the lines meant, for one-line values |
| SocialFiles.FilesReadBack | src/nparseplus/core/socials.py:169-349 | File text to file text: a clearing write reads back as the socials written, and equals the normalised list iff all are faithful |
| SocialFiles.OtherSectionsKept | src/nparseplus/core/socials.py:345-349 | Every other section of the file keeps its lines, but for the separating blank |
| FileLaws.SocialsStandInTheirFile | src/nparseplus/core/socials.py:292-349 | A file's socials are what stands under [Socials], and a write changes those lines alone |
| SocialFiles.PushesReadBack | src/nparseplus/core/socials.py:352-364 | A clearing push reads back as the list it wrote, normalised at five lines and again for the file, iff no value is the sentinel |
| SocialFiles.PushesReadBackWhole | src/nparseplus/core/socials.py:352-364 | A clearing push reads back as the socials it was given, normalised once for the file, iff each of those fits five lines, holds no sentinel and ends in no blank line |
| SocialFiles.PushWrites | src/nparseplus/core/socials.py:352-364 | A push writes what five lines keep of each social, less the blank lines it then ends in |
| Socials.ReadSocials | src/nparseplus/core/socials.py:169-223 | The loops return the section's socials in slot order and a grid that contains every slot and is no larger than needed past the floors |
| Socials.ScanDrafts | src/nparseplus/core/socials.py:176-205 | One pass gathers a draft for each slot: last name, last colour, every line by index |
| Socials.ScanBody | src/nparseplus/core/socials.py:271-289 | Whether some social key is set to the sentinel, the highest line number, and which keys the section carries in canonical spelling |
| Socials.MergeBody | src/nparseplus/core/socials.py:312-337 | The merge loop computes the specified merge |
| Socials.FinishBody | src/nparseplus/core/socials.py:339-343 | Pops the trailing blanks, writes what is left, puts the blanks back in the order popped |
| Socials.WriteSocials | src/nparseplus/core/socials.py:292-349 | The whole write computes the specified lines |
| SocialStore.Store.SyncFromGame | src/nparseplus/core/socialstore.py:146-202 | The loops compute the specified records and report |
| SocialStore.Store.MarkWritten | src/nparseplus/core/socialstore.py:217-267 | The loop computes the specified records |
| SocialStore.Store.ForgetSlots | src/nparseplus/core/socialstore.py:270-274 | Drops the records of the slots |
| StoreValues.SyncAt | src/nparseplus/core/socialstore.py:146-202 | A sync slot by slot: new slots are the game's, known ones renewed, missing ones kept and flagged; records come out sorted |
| StoreValues.MarkAt | src/nparseplus/core/socialstore.py:217-267 | Marking slot by slot |
| StoreValues.ForgetAt | src/nparseplus/core/socialstore.py:270-274 | Forgetting removes the slots asked and no other |
| StoreLaws.DigestIs | src/nparseplus/core/socialstore.py:96-102 | Two socials share a digest iff name, colour and lines agree, blanks at the ends apart |
| StoreLaws.SyncsEachSlot | src/nparseplus/core/socialstore.py:146-202 | A slot's record after a sync, field by field, in each of its six cases, and the order of the records |
| StoreLaws.MarksEachSlot | src/nparseplus/core/socialstore.py:217-267 | A slot's record after a mark, field by field: its origin is the override, or the one it had, or for a new slot the write's; the source follows suit |
| StoreLaws.PlainMarksKeepOrigins | src/nparseplus/core/socialstore.py:231-261 | A save that gives no origins relabels nothing on record |
| StoreLaws.ReportsTheGrid | src/nparseplus/core/socialstore.py:154-191 | A sync reports as added, changed or the same each slot of the file once, in its order, by what was on record |
| StoreLaws.ReportsTheLost | src/nparseplus/core/socialstore.py:193-199 | It reports as lost every slot on record that the file lacks, once, those lost before included |
| StoreRuns.Provenance | src/nparseplus/core/socialstore.py:146-274 | Over every run: slots unique and sorted; a record holds the content last read or written at its slot, its digest stands iff we wrote that content and nothing read since differed, and an origin other than GAME implies it stands |
| StoreRuns.RunSound | src/nparseplus/core/socialstore.py:146-274 | Over every run a non-GAME origin implies that the written digest is that of the stored social |
| StoreRuns.MarkedSlotReadBack | src/nparseplus/core/socialstore.py:173-190 | Reading back a marked slot keeps its origin iff the content read is the content marked, or the origin was GAME |
| StoreRuns.MarkThenSyncKeepsOrigins | src/nparseplus/core/socialstore.py:217-267 | Marking socials of at most five lines and then syncing a grid of those same socials, normalised at any number of lines, changes no origin anywhere |
| StorePush.PushedSlotComesBack | src/nparseplus/core/socials.py:352-364 | A pushed slot is read back as what five lines keep of its social, less trailing blanks and sentinels, and not at all when that is empty |
| StorePush.PushedSlotKeepsItsOrigin | src/nparseplus/core/socialstore.py:173-190 | After a push, its mark and a read of the file it left, a slot written keeps its origin iff the origin was GAME anyway, or what five lines keep holds no sentinel and does not end in a blank, or comes back as nothing; whether or not other slots were cleared |
| StorePush.ClearingPushKeepsOrigins | src/nparseplus/core/socialstore.py:146-267 | After a clearing push, its mark and a read, any slot keeps its origin iff it was not written or the same condition holds |
| StorePush.SentinelLosesTheOrigin | src/nparseplus/core/socials.py:165-166 | A name that spells the sentinel loses its origin in a save, whatever the file |
| StorePush.BlankFifthLineLosesTheOrigin | src/nparseplus/core/socials.py:234-245 | A cut that leaves a blank fifth line loses the origin in a save |
| StorePush.SixthLineKeepsTheOrigin | src/nparseplus/core/socials.py:352-364 | A sixth line alone does not: the push cuts it before it is written |
| StoreRuns.SyncTwiceIsOnce | src/nparseplus/core/socialstore.py:146-202 | The same file read again changes no record and reports nothing added or changed |
| StoreRuns.RestoreOffersEverySlot | src/nparseplus/core/socialstore.py:277-279 | The restore payload offers, once each and in slot order, every slot on record that shows something, lost ones included, and no other |
| Saver.PendingHasATimer | src/nparseplus/config/settings.py:988-1022 | In every interleaving a pending save has an armed or fired timer, nothing else is unsettled, and saves never outnumber requests |
| Saver.PendingIsSaved | src/nparseplus/config/settings.py:997-1003 | Left to its timer a pending save is made, and it sees every request so far |
| Saver.UncancelledRequestsAreSaved | src/nparseplus/config/settings.py:988-1022 | After any prefix ending in a request and any suffix without a cancel: once nothing is pending and no decided save is unmade, the latest save ran after that request |
| Saver.SparedRequestsAreSaved | src/nparseplus/config/settings.py:988-1022 | The same for suffixes with cancels, as long as none finds a save pending |
| Saver.CancelDiscards | src/nparseplus/config/settings.py:1016-1022 | A cancel that finds a save pending leaves no save on its way for it |
| Saver.FlushSaves | src/nparseplus/config/settings.py:1005-1014 | A flush that finds a save pending makes it, disarms the timer, and the save sees every request |
| Saver.FlushOfNothing | src/nparseplus/config/settings.py:1005-1014 | A flush that finds nothing pending makes no save |
| Saver.RequestsStartOver | src/nparseplus/config/settings.py:988-995 | A request arms a new timer, and the one before it never fires if it has not |
| Sharing.PrunedDecidesAsHistory | src/nparseplus/core/sharing.py:438-462 | For roars in time order a roar is sent iff none of its spell was sent less than four seconds before, in the whole history; the pruned list holds one entry a spell at most |
| Sharing.HistoryIsWhatWasSent | src/nparseplus/core/sharing.py:450-462 | The history is the roars sent, in order |
| Sharing.RecentAre | src/nparseplus/core/sharing.py:457-462 | A send leaves on the list itself and the entries of other spells no older than 45 seconds |
| Sharing.SendsAreSpaced | src/nparseplus/core/sharing.py:450-455 | Two sends of one spell are at least four seconds apart |
| Sharing.OutOfOrderRepeats | src/nparseplus/core/sharing.py:457-462 | Out of order, a pruned entry lets a repeat through |
| Sharing.RoarSender.OnDragonRoar | src/nparseplus/core/sharing.py:438-471 | Sends iff allowed and not a repeat, and keeps the pruned list |
| Sharing.DroppedStaysDropped | src/nparseplus/core/sharing.py:117-178 | Once the client is dropped nothing passes a check again and nothing new is queued, whatever modes are set later: nothing is fetched or applied but the one request and one result already past their checks (a short consequence of one flag) |
| Sharing.LeavingTheLaunchModeIsFinal | src/nparseplus/core/sharing.py:247-283 | Applying any mode but the launch mode drops the client for good |
| Sharing.TheLaunchModeKeepsTheClient | src/nparseplus/core/sharing.py:273-277 | Applying the launch mode drops nothing |
| Sharing.OnlyPigParseSessionsFetch | src/nparseplus/core/sharing.py:215-245 | A session built for anything but pigparse never fetches, whatever its mode becomes (a short consequence of one constant) |
| Sharing.NothingPassesInAnotherMode | src/nparseplus/core/sharing.py:215-245 | While the mode is not pigparse nothing passes a check, client or no client |
| Sharing.AllowedJobsAreApplied | src/nparseplus/core/sharing.py:162-178 | With client, mode and launch mode in place a job handed in is fetched and its result applied |
| ChChain.ChainData.ShouldWarn | src/nparseplus/core/ch_chain.py:89-137 | The chain state and the verdict of one call |
| ChChain.ChainService.Observe | src/nparseplus/core/ch_chain.py:277-292 | Expires idle chains, notes the call and gives its verdict |
| ChChain.WarnsOncePerRotation | src/nparseplus/core/ch_chain.py:89-137 | In a chain of 2 to 999 numbers or 2 to 26 letters called in turn among any other calls, no call of the first rotation warns, and after it exactly the call of the place before yours; except that letters go round to the first caller only from Z, so a shorter lettered chain never warns its first |
| ChChain.OneCueARotation | src/nparseplus/core/ch_chain.py:124-135 | Each rotation holds that place exactly once |
| ChChain.ChainStands | src/nparseplus/core/ch_chain.py:277-292 | Whatever other targets are called, a target's chain is where its own calls brought it, and is there iff its last call is no more than 20 seconds old |
| ChCalls.AnyNumberedCall | src/nparseplus/core/ch_chain.py:120-135 | In turn or not, a numbered call warns iff it is the one before yours, or you are first and it is the highest so far |
| ChCalls.AnyLetteredCall | src/nparseplus/core/ch_chain.py:106-119 | In turn or not, a lettered call warns iff it is the one before yours, or yours is A, it is Z, and Z was called before |
| ChCalls.MixedCallsNeverWarn | src/nparseplus/core/ch_chain.py:106-137 | Letters and numbers do not cue each other |
| ChCalls.BlankCallsDoNothing | src/nparseplus/core/ch_chain.py:96-97 | A call whose position is blank changes nothing and warns of nothing |
| ChCalls.IdleChainsExpire | src/nparseplus/core/ch_chain.py:277-292 | A target called again within 20 seconds goes on, and later starts over; the others stay or expire by the same rule |
| Scanners.StripLineComments | tools/convert_zones.py:42-68 | The scan computes the specified text |
| Scanners.StrippedIsClean | tools/convert_zones.py:42-68 | What is left has no comment outside a string, and every string literal as it was |
| Scanners.CleanIsKept | tools/convert_zones.py:42-68 | Stripping changes nothing iff no comment starts outside a string |
| Scanners.StrippingIsIdempotent | tools/convert_zones.py:42-68 | Stripping twice is stripping once |
| Scanners.BalancedBlock | tools/convert_zones.py:71-93 | The scan finds the specified block, or nothing where the source raises |
| Scanners.BlockIsTheMatch | tools/convert_zones.py:71-93 | A block ends at a brace iff what lies before it is balanced; there is only one such brace |
| ScannerLaws.CommentsGo | tools/convert_zones.py:42-68 | A comment in plain code goes, up to the end of its line |
| ScannerLaws.LiteralsStay | tools/convert_zones.py:42-68 | A string literal after plain code stays as it is, slashes and escapes and all |
| ScannerLaws.BalancedIsNested | tools/convert_zones.py:71-93 | Without literals a stretch is balanced iff its braces nest, by counting |
| ScannerLaws.LiteralsDoNotCount | tools/convert_zones.py:71-93 | Taking a string literal out changes no balance, whatever braces and escaped quotes it holds |
| ScannerLaws.OpenLiteralIsUnbalanced | tools/convert_zones.py:71-93 | A stretch that ends inside a literal is not balanced |
| Splitting.SplitTopLevel | tools/convert_zones.py:96-128 | The scan computes the specified parts, or nothing where the source runs off the text |
| Splitting.PartsOfJoin | tools/convert_zones.py:96-128 | Splitting undoes joining, for parts that are trimmed, not blank and closed in brackets and quotes |
| Splitting.JoinOfPieces | tools/convert_zones.py:96-128 | For any text, joining the raw pieces gives the text back and every piece but the last is closed |
| ScannerLaws.ClosedKeepsTogether | tools/convert_zones.py:96-128 | Without literals a piece is one piece iff its brackets come out even and the separator stands nowhere outside them, by counting |
| ScannerLaws.LiteralsDoNotSplit | tools/convert_zones.py:96-128 | Neither brackets nor separators inside a string literal count |
| ScannerLaws.SplitsUnlessItEndsInABackslash | tools/convert_zones.py:96-128 | Text that does not end in a backslash can always be split |
| ScannerLaws.OpenEscapeIsNotSplit | tools/convert_zones.py:96-128 | Text that ends in a backslash inside a literal runs off the text |
| ScannerLaws.TrimsAre | tools/convert_zones.py:128-128 | The parts are the pieces without the blanks at their ends, but for blank ones |

## Left out

- Session statistics, personal bests, pet stamping, snapshots and formatting of the damage meter.
- Unicode: blanks, case and digits are ASCII; case folding of names is an arbitrary function; decoding of bytes is not modelled.
- Slots below zero, which would be written under keys no reader recognises.
- Item-link display (`for_display`, `from_display`), placement of imported socials, and duplicate reports: they only read.
- Loading and saving of the mirror, its header and its `snapshot` lines; digests of different contents are taken to differ.
- Backups, modification times, fsync, log-directory switching, and races between `stat` and `read` inside one poll.
- Files that a failed copy or swap leaves on disk are kept as a list; their names, and a later copy that reuses one, are not modelled.
- Driver: starting a thread is one step, and `start()` does not overlap a command that runs inline; metering and eviction of supervised ticks are not modelled.
- Driver, rotation, archive service, saver and sharing gate are state machines over atomic steps, not classes; what happens inside one lock-held section or one system call is one step.
- ArchiveService: a tick's look at the list and its pop are one step; the sweep's own file work is the subject of `Rotation`.
- Sharing gate: a submission and its check are one step; presence, locations and the hub client are not modelled.
- Complete Heal calls: parsing of the chat line and the cadence patterns.
- Scanners: reading of properties, lists and numbers from the split text.
- Qt, tray, windows, network, speech, subprocesses, triggers, timers and the concrete parsers.
