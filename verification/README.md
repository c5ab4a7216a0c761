# Study 1 harness: a verified model of its protocols, parsers and codecs

The study harness runs an expensive experiment in a shared cloud account. This project models the
parts of it whose correctness is hardest to see from one function, and proves what they promise for
every input, every interleaving and every run.

- **The coordination lease.** Any number of sessions acquire, heartbeat and finalize through one
  shared item with conditional writes. The protocol is a transition system over the item and all
  sessions: `LeaseProtocol.Perform` takes one step, and whoever chooses the steps also chooses the
  interleaving, the clock readings and the fate of every call (applied, condition failed, definitive
  failure, ambiguous and landed, ambiguous and not landed, failed read). Only sessions write the
  item, and an ambiguous write landed or did not at the moment of the call. The classes
  `LeaseSession`, `CoordinationTable` and `LeaseHeartbeatLoop` are the objects of the source,
  proved to take exactly these steps. `LeaseLoopedSessions` runs all sessions and one session's
  heartbeat loop together: the loop reads that session's own loss and delay.
- **Re-runnable cleanup.** A run is a walk over the twelve steps with everything the ports and the
  journal writer answer as input; `CleanupRun.Run` is proved to record and freeze exactly what the
  functions `Finished` and `FrozenResult` say. A campaign is any sequence of runs, each reading what
  is left of the lines recorded before it: lines may be lost for good at any point. A line carries
  the number of the run that recorded it, as the journal's envelope names the source instance.
- **The dead-letter sweep** runs against queues whose every free choice is an input: which eligible
  messages a receive returns, failures, queues that vanish, hidden messages that reappear, messages
  other consumers take and delete meanwhile, a failed deletion that happened all the same.
- **The billing import**: the CSV reader against a grammar (section 2 of RFC 4180, with LF line
  ends), exact decimal money against real numbers, the line classifier with the cost verdict, and
  the way from the export's text to that verdict.
- **Attribute values**: the codec against the wire format, the validator with the shared nesting bound,
  and the worklist size estimate.
- **Smaller loops and folds**: cursor paging, the git status parser, effect knowledge.

Each operation is fixed from both sides: what holds of every run or report, and exactly when each answer
is given, stated on the inputs alone.

State that the source changes in place is a class or a loop here, proved against a function of the
old state; the theorems are about that function. Integers are unbounded; truncating division is
written out where operands may be negative.

## What turned out differently from what the documentation says

- Two sessions can both be allowed to publish. `publicationAllowed` reads a phase that stays `held`
  until the finalization's journal append is answered, after the release has landed.
  `LeaseTheorems.FinalizationOpensOverlap` gives the steps. `OverlapNeedsRelease` proves that two held
  sessions need one whose final write is behind it and whose item is let go, and `OverlapOpensExactly`
  that an idle session can get there by its own steps if and only if the item is absent or released.
- A deletion step that succeeded is not `succeeded` in every later run. If the line that says an
  earlier failure is now absent is lost while the step's `succeeded` line is kept, the next run skips
  the step and freezes `partial`: `CleanupCampaigns.SuccessCanBeForgotten`. `CleanupHealing.StatusExactly`
  gives the exact condition on the history, and `CleanupCampaigns.SuccessLasts` the losses it survives.
- The journal's first refusal does not always become a reason on the step it happened in. When the
  refused line is a step's terminal line, the reason is put on the next step's `started` line, and no
  frozen result shows it: `CleanupJournalStop.StopShowsExactly` (if and only if) and `StopCanBeLost`.
- Losing dispatch evidence only ever leads to UNKNOWN if the evidence was consistent;
  `EffectKnowledge.InconsistentEvidenceMisleads` shows that this is what it takes.
- An id the dead-letter sweep reports absent may still be in a queue: when another consumer had the
  message in flight at the beginning (`DlqTheorems.HiddenIsMissed`), takes it during the sweep
  (`TakenIsMissed`), or in a FIFO queue has one of its group (`GroupedIsMissed`). `SweepIsSound` proves
  that nothing else hides it, and `AbsentMeansAbsentWhenAlone` that a sweep alone with its queues is right.

## Model

| member | source | states |
|---|---|---|
| LeaseStore.CoordinationTable.Perform | study-1/src/coordination-lease/durable-lease-store.ts:58-115 | a conditional write changes the item exactly as its condition and its fate allow, and the answer tells of the fate |
| LeaseStore.StatusWriteExactly | study-1/src/coordination-lease/durable-lease-store.ts:88-115 | a final status is stored exactly on the owner's own item at the expected version, HELD or, for a release, also in recovery, and the outcome tells so exactly when the answer arrives |
| LeaseProtocol.PerformKeepsInvariant | study-1/src/coordination-lease/lease-session.ts:167-287 | every step of every session, whatever its calls come to, keeps the invariant that ties each session's phase and work to the shared item |
| LeaseProtocol.WriteTouchesOnlyOwn | study-1/src/coordination-lease/durable-lease-store.ts:58-115 | a write by one owner never disturbs an item another owner holds or left in recovery |
| LeaseProtocol.OtherSessionsUndisturbed | study-1/src/coordination-lease/durable-lease-store.ts:88-115 | what holds between another session and the item survives any step of this one |
| LeaseProtocol.MovedByInput | study-1/src/coordination-lease/lease-session.ts:108-165 | a step leaves a session alone or is one input of that session |
| LeaseTheorems.ExecuteKeepsInvariant | study-1/src/coordination-lease/lease-session.ts:167-287 | the invariant holds after every run |
| LeaseTheorems.HolderIsNamed | study-1/src/coordination-lease/lease-session.ts:167-236 | in every run, a held session whose final write is not behind it is the one the item names, HELD, at the version it knows or exactly one more |
| LeaseTheorems.MutualExclusion | study-1/src/coordination-lease/durable-lease-store.ts:58-115 | no two distinct owners are ever both held with no final write behind them, finalizations that have not written included |
| LeaseTheorems.MismatchUnreachable | study-1/src/coordination-lease/heartbeat-judgement.ts:46-137 | without an outside writer no run reaches an ownership mismatch, in health, loss or events |
| LeaseTheorems.FinalizedStays | study-1/src/coordination-lease/lease-session.ts:238-287 | a final status never changes |
| LeaseTheorems.FinalStatusIsSound | study-1/src/coordination-lease/lease-finalization.ts:56-146 | `released` means the item names the owner neither HELD nor RECOVERY_REQUIRED then and ever after; `recovery_required` means the item shows exactly that, then and ever after |
| LeaseTheorems.VersionFences | study-1/src/coordination-lease/durable-lease-store.ts:58-115 | a step leaves the item alone, raises the version by one within the tenure, or starts a new tenure at version 1 on an available item |
| LeaseTheorems.OnlyOwnerReleases | study-1/src/coordination-lease/lease-finalization.ts:96-120 | the only step that frees the item from an owner is that owner's own clean final write |
| LeaseTheorems.TenureEndsByOwnRelease | study-1/src/coordination-lease/lease-finalization.ts:56-120 | over any run, a tenure ends only if the owner released it at some step |
| LeaseTheorems.ConfirmationStep | study-1/src/coordination-lease/heartbeat-judgement.ts:46-137 | a step keeps the time of the last confirmation or answers the owner's own write issued then and confirms it: CONFIRMED, nothing in flight, the item the owner's at exactly its version as that write left it |
| LeaseTheorems.LastConfirmationHappened | study-1/src/coordination-lease/lease-session.ts:196-236 | a held session's last confirmation is the issue time of a write of its own that some step of the run so confirmed |
| LeaseTheorems.PublicationNeedsFreshConfirmation | study-1/src/coordination-lease/lease-health.ts:102-104 | publication is allowed only within 300 s of the issue of a write that some step of the run confirmed |
| LeaseTheorems.LossIsKept | study-1/src/coordination-lease/lease-session.ts:217-236 | the first loss is kept over every later run |
| LeaseTheorems.LossEndsPublication | study-1/src/coordination-lease/lease-session.ts:130-139 | after a loss publication is never allowed again, at any clock reading |
| LeaseTheorems.OverlapNeedsRelease | study-1/src/coordination-lease/lease-session.ts:259-281 | in every run, of two held sessions one has its final write behind it and nothing left of the item |
| LeaseTheorems.OverlapOpensExactly | study-1/src/coordination-lease/lease-session.ts:130-139 | an idle session can come to publish beside a publishing one by steps of its own alone if and only if the item is absent or released |
| LeaseTheorems.FinalizationOpensOverlap | study-1/src/coordination-lease/lease-session.ts:259-281 | from any configuration with a publishing and an idle session, six named steps leave both allowed to publish |
| LeaseAnswers.BeatWriteAnswered | study-1/src/coordination-lease/heartbeat-judgement.ts:46-88 | in every reachable configuration a live beat's write lands exactly when the item has the version the session knows and the call is not refused; told so, the session is CONFIRMED at the item's version as of the issue and may publish for 300 s from then, and every other fate leaves it unsure, at the version it was shown, or reading |
| LeaseAnswers.BeatReadAnswered | study-1/src/coordination-lease/heartbeat-judgement.ts:63-137 | the read after a lost answer confirms exactly when it finds the session's own write; otherwise the session is unsure and knows the version it read |
| LeaseAnswers.LateAnswerLoses | study-1/src/coordination-lease/lease-health.ts:61-100 | from 300 s after the last confirmation on, any answer establishes LOST_STALE |
| LeaseAnswers.BeatCalled | study-1/src/coordination-lease/lease-session.ts:196-210 | a beat on a live lease issues its write at the clock's reading, on a lost one nothing |
| LeaseAnswers.AcquireCalled | study-1/src/coordination-lease/lease-session.ts:167-173 | a call on an idle session issues the put at the clock's reading |
| LeaseAnswers.PutAnswered | study-1/src/coordination-lease/lease-acquisition.ts:33-91 | a put that is answered takes exactly an absent item and makes the session held from version 1; a released item leads to the second put, any other refuses, a lost answer to the read |
| LeaseAnswers.ReplaceAnswered | study-1/src/coordination-lease/durable-lease-store.ts:58-87 | the second put takes exactly the released item the first one was shown, and then the session is held |
| LeaseAnswers.AcquireReadAnswered | study-1/src/coordination-lease/lease-acquisition.ts:33-91 | the read after a lost answer acquires exactly when it finds the session's own put; a read that fails leaves the acquisition unresolved |
| LeaseAnswers.FinalizeCalled | study-1/src/coordination-lease/lease-session.ts:238-281 | each phase starts its own finalization, a finalized one none |
| LeaseAnswers.FinalReadAnswered | study-1/src/coordination-lease/lease-finalization.ts:56-95 | a held session goes on to write at the version it read; an unresolved one that finds nothing of its own is released at once |
| LeaseAnswers.FinalWriteAnswered | study-1/src/coordination-lease/lease-finalization.ts:96-146 | the final write lands exactly at the item's version; told so, a clean closure is RELEASED and an unclean one RECOVERY_REQUIRED, and no other fate is told as either |
| LeaseAnswers.FinalResolveAnswered | study-1/src/coordination-lease/lease-finalization.ts:122-146 | after a lost answer the read tells success exactly when the item shows the status that was written |
| LeaseAnswers.JournalAnswered | study-1/src/coordination-lease/lease-session.ts:259-287 | the journal's answer turns the waiting event into the final status |
| LeaseAnswers.AnsweredBeatTells | study-1/src/coordination-lease/lease-session.ts:196-236 | a beat whose write is answered with the item confirms, or tells the session the version it had missed |
| LeaseAnswers.TwoAnsweredBeatsConfirm | study-1/src/coordination-lease/lease-session.ts:196-236 | from every reachable configuration of a live lease, two answered beats before the boundary end CONFIRMED as of the second, at the item's version, whatever was lost before |
| LeaseAnswers.AnsweredFinalizationSettles | study-1/src/coordination-lease/lease-finalization.ts:56-146 | an answered finalization of a held session ends `released` after a clean closure and `recovery_required` after an unclean one, with the item showing it at the next version |
| LeaseAnswers.OutsiderEndsTheLease | study-1/src/coordination-lease/heartbeat-judgement.ts:75-137 | shown an absent item, one that does not decode or another's, a beat loses the lease to an ownership mismatch |
| LeaseAnswers.OutsiderBlocksAcquisition | study-1/src/coordination-lease/lease-acquisition.ts:33-91 | an acquisition shown an item that does not decode is never held |
| LeaseAnswers.OutsiderAtFinalization | study-1/src/coordination-lease/lease-finalization.ts:56-146 | what a finalization makes of an item no session wrote |
| LeaseStaleness.DelayReachesBoundary | study-1/src/coordination-lease/lease-health.ts:114-130 | while unsure the next delay is a full interval, or ends at the stale boundary rounded up to a millisecond |
| LeaseStaleness.DelayExactly | study-1/src/coordination-lease/lease-health.ts:114-130 | the delay is 30 s, or while unsure the fewest whole milliseconds up to the boundary where these are fewer, and none past it |
| LeaseStaleness.UnconfirmedBeat | study-1/src/coordination-lease/lease-session.ts:196-215 | a beat among all sessions that does not confirm establishes LOST_STALE on time, and the listener hears it, or leaves one full interval behind |
| LeaseStaleness.ConfirmedBeat | study-1/src/coordination-lease/lease-heartbeat-loop.ts:88-106 | a beat among all sessions that confirms reports nothing and schedules the next in 30 s |
| LeaseStaleness.StaleAtTheBoundary | study-1/src/coordination-lease/lease-health.ts:61-121 | beats that never confirm reach LOST_STALE within the intervals left, less than 1 ms (plus the timers' lateness) after the boundary, whatever other sessions do, and the listener has heard exactly that |
| LeaseStaleness.TenBeatsSuffice | study-1/src/coordination-lease/lease-heartbeat-loop.ts:81-106 | ten beats always suffice |
| LeaseHeartbeatLoops.EveryLoopIsValid | study-1/src/coordination-lease/lease-heartbeat-loop.ts:51-106 | over every sequence of calls and timers, no timer is pending beside a beat, a running loop always has one of them, and nothing happens before the start or after the report |
| LeaseHeartbeatLoops.LoopGoesOn | study-1/src/coordination-lease/lease-heartbeat-loop.ts:51-106 | a started loop that no stop, no missing lease and no loss has ended has its next beat on the way, after a delay the session asked for |
| LeaseHeartbeatLoops.EndedStays | study-1/src/coordination-lease/lease-heartbeat-loop.ts:65-106 | a loop once stopped, without a lease or lost never sets a timer again; a beat in flight at a stop is the last; the loss is what the listener hears |
| LeaseLoopedSessions.LossHeardExactlyOnce | study-1/src/coordination-lease/lease-heartbeat-loop.ts:88-106 | in every run of all sessions and the loop, the listener has heard nothing or exactly the session's own loss, staleness, exactly once, has heard it as soon as the beat that established it is over, and the loop is silent from then on |
| LeaseHeartbeatLoops.LeaseHeartbeatLoop.FireTimer | study-1/src/coordination-lease/lease-heartbeat-loop.ts:81-86 | a timer that fires starts the one beat in flight |
| LeaseHeartbeatLoops.LeaseHeartbeatLoop.Start | study-1/src/coordination-lease/lease-heartbeat-loop.ts:51-63 | starting once schedules the first beat; a second start throws and changes nothing |
| LeaseHeartbeatLoops.LeaseHeartbeatLoop.Stop | study-1/src/coordination-lease/lease-heartbeat-loop.ts:65-75 | stopping cancels the pending timer |
| LeaseHeartbeatLoops.LeaseHeartbeatLoop.SettleBeat | study-1/src/coordination-lease/lease-heartbeat-loop.ts:88-106 | a settled beat stops, reports or reschedules as the loop machine says |
| LeaseSessions.LeaseSession.Acquire | study-1/src/coordination-lease/lease-session.ts:167-194 | the object takes the step of the protocol; only an idle session may acquire |
| LeaseSessions.LeaseSession.HeartbeatOnce | study-1/src/coordination-lease/lease-session.ts:196-215 | the object takes the step of the protocol: no call once lost, no call past the boundary |
| LeaseSessions.LeaseSession.Finalize | study-1/src/coordination-lease/lease-session.ts:238-281 | the object takes the step of the protocol, from each phase |
| LeaseSessions.LeaseSession.ReceiveWriteAnswer | study-1/src/coordination-lease/heartbeat-judgement.ts:46-88 | the answer of an acquiring, beating or final write moves the object as the protocol says |
| LeaseSessions.LeaseSession.ReceiveReadAnswer | study-1/src/coordination-lease/heartbeat-judgement.ts:90-137 | the answer of a resolving read moves the object as the protocol says |
| LeaseSessions.LeaseSession.ReceiveJournalAnswer | study-1/src/coordination-lease/lease-session.ts:259-287 | only the journal's answer to the final event ends the held phase |
| CurCsv.ParseRecords | study-1/src/billing-amendment/cur-csv.ts:88-98 | for every text, the reader returns given records if and only if the text is a rendering of them |
| CurCsv.ParseCursor.ReadField | study-1/src/billing-amendment/cur-csv.ts:100-140 | reading a field keeps what the whole text comes to, and the index strictly advances |
| CurCsv.ParseCursor.ReadSeparator | study-1/src/billing-amendment/cur-csv.ts:142-173 | a comma continues the record, a line end or the end closes it, anything else is refused |
| CurCsv.ScanToClosingQuote | study-1/src/billing-amendment/cur-csv.ts:123-140 | the scan for the closing quote undoubles quotes and never leaves a field unclosed |
| CsvReading.RenderingIsRead | study-1/src/billing-amendment/cur-csv.ts:88-185 | every legal writing of cells is read as its records |
| CsvReading.ReadIsRendering | study-1/src/billing-amendment/cur-csv.ts:88-185 | every text that is read was such a writing |
| CsvReading.ReaderIsTheGrammar | study-1/src/billing-amendment/cur-csv.ts:88-185 | reading succeeds with given records exactly on their renderings |
| CsvReading.PrintedRecordsAreRead | study-1/src/billing-amendment/cur-csv.ts:88-185 | printing any records with quotes and reading the text returns them |
| CurCsv.HeaderFailure | study-1/src/billing-amendment/cur-csv.ts:205-218 | a header passes exactly when its names are non-empty and distinct |
| CurCsv.TableOf | study-1/src/billing-amendment/cur-csv.ts:187-203 | a table exists exactly for a good header with rows of its width, and holds every field |
| CurCsv.ParseCurText | study-1/src/billing-amendment/cur-csv.ts:51-63 | a decoded export is accepted exactly when it renders such a table |
| CurCsv.MarkExactly | study-1/src/billing-amendment/cur-csv.ts:51-63 | one byte order mark at the beginning is dropped, and nothing else |
| MoneyDecimals.ToScaledIsExact | study-1/src/billing-amendment/money-decimal.ts:102-110 | scaling a money text keeps its value |
| MoneyDecimals.FormatIsExact | study-1/src/billing-amendment/money-decimal.ts:116-124 | formatting a scaled amount yields a well-formed money text of the same value, without trailing zeros |
| MoneyDecimals.SumIsExact | study-1/src/billing-amendment/money-decimal.ts:76-83 | the sum's text denotes the exact sum, without trailing zeros |
| MoneyDecimals.SumInAnyOrder | study-1/src/billing-amendment/money-decimal.ts:76-83 | the sum's text does not depend on the order |
| MoneyDecimals.CompareIsTheOrder | study-1/src/billing-amendment/money-decimal.ts:91-100 | comparison is the order of the values, equality included |
| MoneyDecimals.CostIsExact | study-1/src/billing-amendment/money-decimal.ts:48-69 | a legal cost text is accepted if and only if it has a digit, at most 64 characters and an exponent within 64; what is returned is mantissa times ten to the exponent, exactly, a money text verbatim and any other without trailing zeros |
| MoneyDecimals.ExponentForm | study-1/src/billing-amendment/money-decimal.ts:48-69 | a text of digits, point, digits and signed exponent is read as those digits times ten to that exponent, exactly when the exponent has digits and the bounds hold |
| MoneyDecimals.OtherTextsAreRefused | study-1/src/billing-amendment/money-decimal.ts:48-69 | every text of no legal form is refused |
| MoneyDecimals.PartsAreUnique | study-1/src/billing-amendment/money-decimal.ts:48-69 | a cost text splits into mantissa and exponent in one way only |
| MoneyDecimals.AcceptedCostIsMoney | study-1/src/billing-amendment/money-decimal.ts:48-69 | what is accepted is a well-formed money text |
| UsageWindows.WindowIsTightest | study-1/src/billing-amendment/usage-window.ts:56-62 | the window is the fewest whole hours that hold every instant of the run |
| UsageWindows.HourlyLinesNeverStraddle | study-1/src/billing-amendment/usage-window.ts:56-80 | a line of one whole hour is inside the window or disjoint from it |
| LineAttribution.AttributedExactly | study-1/src/billing-amendment/line-attribution.ts:95-184 | a line is attributed if and only if every identity, the interval and the cost are the run's |
| LineAttribution.NoRunUsageIsExcluded | study-1/src/billing-amendment/line-attribution.ts:95-210 | a line that may be run usage is excluded only for an excluded type, another account or a readably disjoint interval |
| LineAttribution.ClassifiedExactly | study-1/src/billing-amendment/line-attribution.ts:95-184 | a line is used if and only if it is exactly the run's, excluded if and only if it is rightly set aside, and left over with its code otherwise, each stated on the line's own cells |
| LineAttribution.ExclusionExactly | study-1/src/billing-amendment/line-attribution.ts:95-222 | which of the exclusions a set-aside line is given |
| LineAttribution.ExcludedTypesExactly | study-1/src/billing-amendment/line-attribution.ts:56-70 | which line types are no usage, and the exclusion of each |
| LineAttribution.BlankExactly | study-1/src/billing-amendment/line-attribution.ts:212-214 | a cell is blank exactly when a trim leaves nothing of it |
| LineAttribution.CurrencyTexts | study-1/src/billing-amendment/line-attribution.ts:75 | a currency is three capital letters |
| LineAttribution.DispositionsPartition | study-1/src/billing-amendment/line-attribution.ts:85-93 | used, excluded and left-over lines hold what becomes of every line exactly as often as the export has it |
| LineAttribution.LeftOverLeavesReason | study-1/src/billing-amendment/line-attribution.ts:85-93 | a left-over line always leaves a reason |
| BilledCostCheck.UsedLinesAreExact | study-1/src/billing-amendment/line-attribution.ts:168-199 | every line in the total is a line of the export that is exactly the run's |
| BilledCostCheck.CostsAreMoney | study-1/src/billing-amendment/billed-cost-check.ts:33-51 | the check is defined on every export and its total is the exact sum |
| BilledCostCheck.NoRunUsageLeftOut | study-1/src/billing-amendment/billed-cost-check.ts:33-79 | when the verdict is `within_limit` or `breached`, every line that may be run usage and is not rightly set aside is exactly the run's, in the total as often as in the export, in USD and inside the window |
| BilledCostCheck.VerdictIsExact | study-1/src/billing-amendment/billed-cost-check.ts:33-79 | a verified verdict compares with the ceiling exactly what the export's lines that are the run's cost, over a final period that covers the window |
| BilledCostCheck.VerifiedExactly | study-1/src/billing-amendment/billed-cost-check.ts:33-79 | the verdict is not `unverified` if and only if the period is final and covers the window, every line that is exactly the run's is in USD, and every other line is rightly set aside |
| BilledCostCheck.ReasonsAreCauses | study-1/src/billing-amendment/billed-cost-check.ts:53-79 | each reason of an unverified verdict is given exactly when its cause is there |
| BillingImports.ImportText | study-1/src/billing-amendment/billing-import.ts:60-99 | an export's text is imported exactly as the one table it renders and refused exactly when it renders none; it is verified if and only if that table is verifiable, and then exact about the rows the text renders |
| BillingImports.VerifiedImportIsExact | study-1/src/billing-amendment/cur-export.ts:62-136 | a verified import has every line column; its total is what the rows that are the run's cost; every row that may be run usage is counted or rightly set aside; every row carries an invoice and a period that covers the window |
| BillingImports.VerifiedImportExactly | study-1/src/billing-amendment/cur-export.ts:62-136 | an import is verified if and only if the export has every line column, one final period that covers the window, and only rows that are exactly the run's in USD or rightly set aside |
| BillingImports.PeriodExactly | study-1/src/billing-amendment/cur-export.ts:62-136 | a period is read if and only if there is a row and every row names the same two readable instants, the end after the start; it is final exactly when every row has an invoice |
| BillingImports.LinesExactly | study-1/src/billing-amendment/cur-export.ts:62-136 | each line is named `row:` and its number from 1 and holds the row's cells under their columns |
| BillingImports.CellExactly | study-1/src/billing-amendment/cur-export.ts:128-136 | a cell is where the row crosses the column of that name |
| BillingImports.MissingColumnsLeaveUnverified | study-1/src/billing-amendment/billing-import.ts:93-99 | an export without a line column is never verified |
| OwnershipJudgement.JudgeOwnership | study-1/src/cleanup/ownership-judgement.ts:30-44 | the loop over the sightings is the judgement the lemmas are about |
| OwnershipJudgement.StrongestIsKept | study-1/src/cleanup/ownership-judgement.ts:30-55 | per resource the kept decision is the lowest-rank one over all sightings, the first on ties; a resource has an entry exactly when sighted |
| OwnershipJudgement.KeptInFirstSightingOrder | study-1/src/cleanup/ownership-judgement.ts:30-44 | the entries stand in the order of first sighting |
| ResourceNameForms.CanonicalExactly | study-1/src/cleanup/resource-names.ts:21-79 | a resource's name is the one its identifier carries, in each of the URL and ARN forms of its type, whatever surface shows it, and the identifier itself where it carries none |
| ResourceNameForms.KeysExactly | study-1/src/cleanup/resource-names.ts:70-79 | two resources share a key exactly when they share type and name |
| Ownership.DirectDeletionExactly | study-1/src/cleanup/ownership.ts:43-160 | a sighting proves direct deletion if and only if it is neither baseline nor the recorded stack and is listed with the run's own tags, or missing from an incomplete manifest with every run tag, an expected type or name and a creation after the freeze |
| Ownership.DecisionExactly | study-1/src/cleanup/ownership.ts:43-168 | which of the decisions a sighting gets, stated on the resource, its tags, the manifest and the stack; the reasons of an ambiguous one are exactly its missing evidence |
| Ownership.EvidenceExactly | study-1/src/cleanup/ownership.ts:85-168 | each piece of evidence by the resource's own name, type and tags: baseline, the run's own tags, every run tag, an expected type or name |
| Ownership.SingleTagExactly | study-1/src/cleanup/ownership.ts:100-168 | a tag has a value exactly when it is read once with it |
| SurfaceSweep.SightSurface | study-1/src/cleanup/surface-sweep.ts:39-59 | a tag-index listing keeps exactly the resources confirmed present |
| SurfaceSweep.SweepSurfaces | study-1/src/cleanup/surface-sweep.ts:31-37 | every surface is sighted once, in catalogue order |
| SurfaceSweep.TroubleExactly | study-1/src/cleanup/surface-sweep.ts:31-59 | a sweep reports no reason exactly when every surface answered |
| SurfaceSweep.SightingExactly | study-1/src/cleanup/surface-sweep.ts:39-59 | a surface shows a resource exactly when it lists it and, for the tag index, a describe call confirms it; it answered exactly when neither failed |
| SurfaceSweep.SweepSightsExactly | study-1/src/cleanup/surface-sweep.ts:31-59 | the sweep sights exactly what some sighting has |
| SurfaceSweep.SweepTellsExactly | study-1/src/cleanup/surface-sweep.ts:31-59 | the reasons are exactly those some sighting tells |
| OwnedResourceDeletion.StackDeletedExactly | study-1/src/cleanup/owned-resource-deletion.ts:143-174 | waiting ends `DELETED` exactly when one of at most 240 reads shows the stack gone and all before it are undecided, and times out exactly when all are |
| OwnedResourceDeletion.DeleteOwnedResources | study-1/src/cleanup/owned-resource-deletion.ts:58-84 | the step records, asks and reports exactly the work that `DeletionRecords` and `DeletionTheorems` are about, throwing ports included |
| OwnedResourceDeletion.SettleRemaining | study-1/src/cleanup/owned-resource-deletion.ts:180-211 | every judged resource is settled in turn until a port throws, as `DeletionRecords.RecordsExactly` is about |
| OwnedResourceDeletion.RecordVanished | study-1/src/cleanup/owned-resource-deletion.ts:87-105 | exactly the earlier failures that no surface shows are recorded absent |
| DeletionTheorems.DeletionIsSafe | study-1/src/cleanup/owned-resource-deletion.ts:71-79 | the deleter is asked at most once per resource, only with a sighting that proves direct deletion and where no sighting is baseline; unless a port throws, about every such resource |
| DeletionTheorems.SuccessMentionsEveryFailure | study-1/src/cleanup/owned-resource-deletion.ts:58-105 | when the step succeeds it records something about every resource an earlier run failed to delete |
| DeletionTheorems.SuccessSettlesWell | study-1/src/cleanup/owned-resource-deletion.ts:58-211 | when the step succeeds it records no failed deletion |
| DeletionRecords.RecordsExactly | study-1/src/cleanup/owned-resource-deletion.ts:58-211 | unless a port throws, an item is recorded if and only if it is owed: deleted, absent or failed as the recorded stack's reads or the deleter's answer about the strongest sighting say, left as baseline, skipped as ambiguous with its evidence, or absent for an earlier failure no surface shows; a step that throws records nothing else |
| DeletionRecords.StackRecordsExactly | study-1/src/cleanup/owned-resource-deletion.ts:112-174 | what is recorded about the stack: absent exactly when the first read shows it gone, deleted exactly when a later one does after the request, failed with the code otherwise |
| DeletionRecords.EndsExactly | study-1/src/cleanup/owned-resource-deletion.ts:58-84 | unless a port throws, the step's reasons are exactly the codes of its failed deletions and of the surfaces that did not answer, and it succeeds exactly without any |
| DeletionRecords.ThrowsExactly | study-1/src/cleanup/owned-resource-deletion.ts:58-84 | the step throws exactly when a stack call does, or the deleter about a resource it is asked about |
| CleanupActionFold.FoldResources | study-1/src/cleanup/cleanup-action-fold.ts:109-121 | the loop over the lines is the fold the lemmas are about |
| CleanupActionFold.LatestLineWins | study-1/src/cleanup/cleanup-action-fold.ts:109-145 | a resource's entry is its latest step-9 line, and it has one exactly when such a line exists |
| CleanupActionFold.HealedShowsNoFailure | study-1/src/cleanup/operational-statuses.ts:41-46 | the fold shows a failed deletion exactly when some failed deletion has no later line about its resource |
| CleanupJournals.CleanupJournal.Record | study-1/src/cleanup/cleanup-journal.ts:38-55 | every action is kept, accepted or not, and only the first refusal is noted |
| CleanupJournals.CleanupJournal.TakeFailure | study-1/src/cleanup/cleanup-journal.ts:57-61 | the noted refusal is handed out once |
| CleanupRuns.CleanupRun.Run | study-1/src/cleanup/cleanup-orchestrator.ts:104-154 | the run records exactly the lines and returns exactly the result the theorems are about |
| CleanupRuns.CleanupRun.RunWork | study-1/src/cleanup/cleanup-step-dispatch.ts:72-142 | the object does the work of the step that `CleanupResults` is about, audit and stable absence included |
| CleanupRuns.CleanupRun.RecordStep | study-1/src/cleanup/cleanup-orchestrator.ts:166-181 | a step line takes the waiting refusal, a terminal one all carried reasons |
| CleanupRunTheorems.StepAdds | study-1/src/cleanup/cleanup-orchestrator.ts:121-137 | an executed step adds its start, item lines and one terminal line, and nothing else |
| CleanupRunTheorems.FrozenResultIsComplete | study-1/src/cleanup/cleanup-orchestrator.ts:104-154 | for any mode, history, throwing port and stopped journal the result lists steps 1 to 12 once each in order, 1 to 11 terminal; an executed step shows this run's status, reasons, start and end, a skipped one the history's; the audit steps always execute |
| CleanupRunTheorems.StepsKeepOrder | study-1/src/cleanup/cleanup-steps.ts:57-66 | lines of a step come before all lines of the steps its mode orders later |
| CleanupRunTheorems.FindingIsReportedOnce | study-1/src/cleanup/cleanup-orchestrator.ts:104-181 | every history finding is in exactly one line of the run, the terminal line of one of steps 1 to 11, and the frozen result shows it there |
| CleanupResults.StepShowsItsEnd | study-1/src/cleanup/cleanup-orchestrator.ts:121-137 | an executed step shows in the frozen result the status it ended with and, of its own reasons, exactly its codes |
| CleanupResults.PortStepShowsItsEnd | study-1/src/cleanup/cleanup-step-dispatch.ts:72-115 | steps 1 to 8 show what their ports answered, and a port that throws shows `failed` |
| CleanupResults.AuditShowsExactly | study-1/src/cleanup/cleanup-step-dispatch.ts:116-142 | the frozen result shows step 10 `succeeded` if and only if the audit answered with a pass and every surface in every pass, and step 11 if and only if the audit is clean; otherwise each is `failed` with its reason |
| CleanupResults.ThrownAuditShows | study-1/src/cleanup/cleanup-step-dispatch.ts:116-128 | an audit that throws leaves its reason on step 10 |
| CleanupResults.StatusOfEachKind | study-1/src/cleanup/operational-statuses.ts:41-46 | the run is `partial` if and only if some failed deletion is the last word on its resource, `succeeded` if and only if none is and step 9 stands succeeded, and `failed` otherwise |
| CleanupResults.ResultShowsItem | study-1/src/cleanup/cleanup-action-fold.ts:109-145 | the frozen result shows of a resource the last item this run's step 9 recorded about it |
| CleanupResults.LinesAreStamped | study-1/src/cleanup/cleanup-journal.ts:38-55 | every line carries the run, its mode and the time of its position |
| CleanupResults.FreezeIsTold | study-1/src/cleanup/cleanup-orchestrator.ts:139-154 | the run's last line tells how the freeze went |
| CleanupHealing.SuccessHealsAccount | study-1/src/cleanup/owned-resource-deletion.ts:58-105 | after a successful step 9 no failed deletion of any earlier run is the last word on its resource |
| CleanupHealing.StatusExactly | study-1/src/cleanup/cleanup-result.ts:32-49 | a run freezes `succeeded` if and only if its step 9 succeeds or, where it skips the step, every failed deletion in the history is followed by a line about the same resource |
| CleanupCampaigns.SkipIsSound | study-1/src/cleanup/cleanup-orchestrator.ts:104-137 | over any sequence of runs with lost lines, a run skips one of steps 1 to 9 exactly when a `succeeded` line of it is left, and then an earlier run executed it to success and none has executed it since |
| CleanupCampaigns.HistoryIsSound | study-1/src/cleanup/cleanup-action-fold.ts:87-107 | in every history of a campaign a step's `succeeded` line is its last one, from the run whose success stands |
| CleanupCampaigns.ExecutionLeavesLines | study-1/src/cleanup/cleanup-orchestrator.ts:112-116 | a run leaves lines of a step exactly when the history does not show it succeeded, or it always reruns |
| CleanupCampaigns.SuccessLasts | study-1/src/cleanup/operational-statuses.ts:41-46 | once step 9 succeeds, every later run skips it and freezes `succeeded` while no step-9 line other than a failed deletion is lost |
| CleanupCampaigns.SuccessCanBeForgotten | study-1/src/cleanup/cleanup-action-fold.ts:109-121 | three runs, one of whose absent-line is lost, end in `partial` after a success |
| CleanupJournalStop.StopShowsExactly | study-1/src/cleanup/cleanup-journal.ts:38-61 | the stop of the journal shows on a step of the result if and only if the first refused line is one of that step, of steps 1 to 11, and not its terminal line |
| CleanupJournalStop.StopCanBeLost | study-1/src/cleanup/cleanup-orchestrator.ts:166-181 | a run whose journal refuses a terminal line shows the stop on no step |
| DlqDeletion.CapturedDlqMessageDeletion.DeleteCaptured | study-1/src/cleanup/dlq-message-deletion.ts:82-99 | the object leaves the queues as the sweep of `DlqTheorems` and `DlqOutcomes` does, and reports that sweep's ids, the pending ones absent exactly when no queue left a gap |
| DlqTheorems.SweepIsSound | study-1/src/cleanup/dlq-message-deletion.ts:82-163 | for all choices of the queues and other consumers: the three lists hold every captured id exactly once; the sweep deletes no uncaptured message; an id reported deleted was deleted; an id reported absent is in no bound queue unless another consumer had it or, in a FIFO queue, one of its group; at most 20 receives per queue |
| DlqTheorems.AbsentMeansAbsentWhenAlone | study-1/src/cleanup/dlq-message-deletion.ts:82-99 | with nothing in flight at the beginning and no other consumer, an id reported absent is in no bound queue that exists |
| DlqOutcomes.OutcomesHaveCauses | study-1/src/cleanup/dlq-message-deletion.ts:82-163 | for all choices: an id failed with a code has a deletion that failed with it; every captured message received is reported deleted or failed; and where no deletion fails every captured message received is gone and its id reported deleted |
| DlqHealthySweep.HealthySweepSettlesEveryId | study-1/src/cleanup/dlq-message-deletion.ts:82-163 | alone with queues that answer, each with fewer than 20 visible messages and the FIFO ones with captured messages only, the sweep reports no failure, deletes exactly the captured ids that are in a bound queue and reports exactly the others absent |
| DlqTheorems.NothingStaysHidden | study-1/src/cleanup/dlq-message-deletion.ts:103-117 | where releases work, the deletion leaves no message in flight but what other consumers had: whatever it held is let go |
| DlqOutcomes.GapsHaveCauses | study-1/src/cleanup/dlq-message-deletion.ts:84-141 | a gap is a receive that failed with its code, 20 receives, a FIFO queue or no queue at all |
| DlqQueueModel.FifoExactly | study-1/src/cleanup/dlq-message-deletion.ts:109 | a queue counts as FIFO exactly when its URL ends in `.fifo` |
| DlqDeletion.CapturedDlqMessageDeletion.Sweep | study-1/src/cleanup/dlq-message-deletion.ts:103-117 | the object sweeps one queue, releases what it held and reports the gap, as the functions say |
| DlqTheorems.SweepKeeps | study-1/src/cleanup/dlq-message-deletion.ts:103-117 | a sweep without a gap leaves no pending id in its queue but what other consumers had; a FIFO sweep that held something is a gap |
| DlqDeletion.CapturedDlqMessageDeletion.ReceiveUntilEmpty | study-1/src/cleanup/dlq-message-deletion.ts:119-141 | the bounded receive loop ends as the functions say |
| DlqTheorems.ReceivesKeep | study-1/src/cleanup/dlq-message-deletion.ts:119-141 | every receive and settlement keeps the account of ids and messages; without a gap and with nothing hiding a group the queue is cleared |
| DlqDeletion.CapturedDlqMessageDeletion.SettleMessage | study-1/src/cleanup/dlq-message-deletion.ts:144-163 | one message is deleted or held, and noted, as `DlqTheorems.SettlingOne` and `DlqOutcomes.OutcomesHaveCauses` are about |
| DlqTheorems.SettlingOne | study-1/src/cleanup/dlq-message-deletion.ts:144-163 | settling touches only its own message, which is then gone or held; only a captured one is ever deleted |
| DlqTheorems.EmptyReceiveProves | study-1/src/cleanup/dlq-message-deletion.ts:101-117 | an empty receive with nothing held, or from a queue that is not FIFO, proves every pending id absent or another consumer's |
| DlqTheorems.HiddenIsMissed | study-1/src/cleanup/dlq-message-deletion.ts:119-141 | the report calls an id absent although its message is in the bound queue, in flight from the beginning |
| DlqTheorems.TakenIsMissed | study-1/src/cleanup/dlq-message-deletion.ts:119-141 | the same when another consumer takes the message during the sweep |
| DlqTheorems.GroupedIsMissed | study-1/src/cleanup/dlq-message-deletion.ts:103-117 | the same in a FIFO queue for a message nobody has, while another consumer has one of its group |
| DlqTheorems.OneSettled | study-1/src/cleanup/dlq-message-deletion.ts:144-163 | settling one pending id keeps the partition of the captured ids |
| GitRecords.SplitLeading | study-1/src/admission/git-porcelain.ts:124-140 | the loop splits off fields as the function the lemmas are about |
| GitRecords.SplitExactly | study-1/src/admission/git-porcelain.ts:124-140 | splitting succeeds with given fields exactly when the record is those non-empty, space-free fields and the rest |
| GitRecords.RecordExactly | study-1/src/admission/git-porcelain.ts:76-121 | a record is read as an entry if and only if it is a printing of that entry, and as a header exactly when it starts like one |
| GitPorcelainTheorems.HeaderSplits | study-1/src/admission/git-porcelain.ts:76-121 | a header's name has no space and its value is all that follows the first one |
| GitPorcelain.ParseGitPorcelainV2 | study-1/src/admission/git-porcelain.ts:51-73 | the index loop that may skip a record yields the snapshot the theorems are about |
| GitPorcelainTheorems.NothingIsLost | study-1/src/admission/git-porcelain.ts:51-144 | the output is its records; each is a header, one entry, one malformed record or the original path after a `2` record, listed one for one in order; commit and branch are what the last `branch.oid` and `branch.head` headers say |
| GitPorcelainTheorems.CleanExactly | study-1/src/admission/git-porcelain.ts:51-144 | no malformed record and only ignored entries if and only if every record is a header or ignored and nothing trails |
| GitPorcelainTheorems.PrintThenParse | study-1/src/admission/git-porcelain.ts:51-144 | printing headers and entries, then parsing, returns exactly the entries, nothing malformed and the commit and branch of the last headers |
| StoredNumbers.EncodableIsReadBack | study-1/src/durable-store/attribute-value-codec.ts:133-177 | a number without a refusal is printed in the accepted form and read back |
| AttributeWire.NumberTextExactly | study-1/src/durable-store/attribute-value-codec.ts:34 | a text passes the number pattern if and only if it is an optional minus, digits, an optional fraction and an optional exponent |
| AttributeWire.StorableNumbers | study-1/src/durable-store/attribute-value-limits.ts:52-63 | a number is stored if and only if it is a fraction of at least the smallest magnitude or an integer up to 2^53 - 1 either way, and the reason names what is wrong |
| AttributeWire.DecodedExactly | study-1/src/durable-store/attribute-value-codec.ts:118-211 | data is decoded as a value at a depth if and only if it stands for the value, member for member and element for element, and the levels fit into the 32 |
| AttributeWire.EncodedStandsFor | study-1/src/durable-store/attribute-value-codec.ts:44-76 | what is encoded stands for the value given |
| AttributeWire.ItemDecodedExactly | study-1/src/durable-store/attribute-value-codec.ts:98-115 | an item is decoded as given attributes if and only if it stands for them, each fits by itself, and `pk` and `sk` are strings |
| AttributeWire.RefusalHasACause | study-1/src/durable-store/attribute-value-codec.ts:118-211 | a refusal names a fault the data has, at the value or nested in it |
| AttributeWire.ViolationsExactly | study-1/src/durable-store/attribute-value-limits.ts:142-159 | the validator reports a nesting if and only if the levels do not fit, and of a value that fits exactly one violation for every unstorable number |
| AttributeValueCodec.EncodeAttributeMap | study-1/src/durable-store/attribute-value-codec.ts:70-76 | the loop encodes every member in order or stops at the first refusal |
| AttributeValueCodec.DecodeList | study-1/src/durable-store/attribute-value-codec.ts:181-194 | the loop decodes every element in order or stops at the first refusal |
| AttributeValueCodec.DecodeMapMember | study-1/src/durable-store/attribute-value-codec.ts:198-211 | the loop decodes every member in order or stops at the first refusal |
| AttributeValueTheorems.ValidatorAgreesWithCodec | study-1/src/durable-store/attribute-value-limits.ts:142-159 | at every depth a value has no violation if and only if it encodes and its encoding decodes, and then it decodes to the same value |
| AttributeValueTheorems.DecodedIsStable | study-1/src/durable-store/attribute-value-codec.ts:118-211 | whatever is decoded, from any data, is written and read back unchanged |
| AttributeValueTheorems.DecodedIsStorable | study-1/src/durable-store/attribute-value-codec.ts:118-211 | whatever is decoded has no violation |
| AttributeValueTheorems.ItemComesBackExactly | study-1/src/durable-store/attribute-value-codec.ts:98-115 | an item is read back from its encoded attributes if and only if each passes the validator at depth 0 and the key is two strings |
| AttributeValueTheorems.StorableExactly | study-1/src/durable-store/attribute-value-limits.ts:142-159 | a value passes exactly when its numbers are storable and its levels of lists and maps fit into the 32, however it is enclosed |
| AttributeSizes.EstimatedValueBytes | study-1/src/durable-store/attribute-value-limits.ts:105-116 | the worklist ends and adds up to the recursive size, for values of any depth and width |
| AttributeSizes.EstimatedItemBytes | study-1/src/durable-store/attribute-value-limits.ts:90-96 | an item's size is its map's recursive size without the overheads of the map and its elements |
| AttributeSizes.ItemSizeViolation | study-1/src/durable-store/attribute-value-limits.ts:135-140 | an item is refused exactly above 400 KB |
| AttributeSizes.SignificantExactly | study-1/src/durable-store/attribute-value-limits.ts:180-185 | the digits that count are those between the outermost zeros, whatever the point and the exponent; zero counts one |
| AttributeSizes.IntegerBytes | study-1/src/durable-store/attribute-value-limits.ts:169-185 | a safe integer takes a byte for two digits before its decimal zeros, rounded up, and one more, whatever its sign |
| AttributeSizes.DocumentedSizes | study-1/src/durable-store/attribute-value-limits.ts:80-116 | the documented sizes, and the ends of the ranges of 1 to 4 bytes a character |
| Paging.CollectPages | study-1/src/cleanup/surface-readings.ts:110-134 | for a listing that is a fixed function of its cursor: everything if and only if the chain ends within the limit, a failure exactly when the walk meets it, the cursor that comes back first exactly when one does within the limit, and then the chain ends under no limit, and the limit exactly when every page leads on with cursors that all differ |
| Paging.RepeatedCursorNeverEnds | study-1/src/cleanup/surface-readings.ts:110-134 | a chain that repeats a cursor ends under no limit |
| EffectKnowledge.FoldTellsTheTruth | study-1/src/attempt-lifecycle/effect-knowledge.ts:14-84 | unless UNKNOWN the fold names the true number of effects, and it is UNKNOWN exactly when some attempt is ambiguous |
| EffectKnowledge.ClassIsWhatIsPossible | study-1/src/attempt-lifecycle/outcome-classification.ts:33-57 | for consistent evidence the class of an attempt is exactly what its record leaves possible: none when nothing, ambiguous when an effect and none, success, rejection or failure before dispatch when only that |
| EffectKnowledge.RecordsTellTheTruth | study-1/src/attempt-lifecycle/dispatch-classification.ts:41-49 | from the recorded evidence alone: unless UNKNOWN the fold names the true number of effects of every truth the records leave possible |
| EffectKnowledge.UnknownMeansUndetermined | study-1/src/attempt-lifecycle/effect-knowledge.ts:14-84 | whenever the fold says UNKNOWN, different numbers of effects are possible |
| EffectKnowledge.FoldInAnyOrder | study-1/src/attempt-lifecycle/effect-knowledge.ts:82-84 | the fold does not depend on the order of the attempts |
| EffectKnowledge.FoldIsSummary | study-1/src/attempt-lifecycle/effect-knowledge.ts:14-84 | the fold is exactly what the number of successes and the presence of a rejection and of an ambiguous attempt say |
| EffectKnowledge.LosingEvidenceOnlyLosesKnowledge | study-1/src/attempt-lifecycle/dispatch-classification.ts:41-49 | turning consistent dispatch evidence into `unknown` leaves the fold as it is or makes it UNKNOWN |
| EffectKnowledge.InconsistentEvidenceMisleads | study-1/src/attempt-lifecycle/outcome-classification.ts:33-57 | for inconsistent evidence there always is a loss that changes the class to another than ambiguous |

## Left out

- The wording of reasons and details: codes and whether a list is empty are kept.
- Gzip, UTF-8 decoding, hashing, schema validation and timestamp texts: instants are integers, how an export's cell spells one is a parameter, and a parser starts from decoded text.
- An ambiguous write that lands later than its call, and retries inside the SDK.
- Lease versions beyond the safe-integer range, and runs in which others write the lease item: theorems about runs let only the sessions write it; the `LeaseAnswers.Outsider` lemmas say what one session does when it is shown an item no session wrote.
- The journal appends after an acquisition and after a beat are not suspension points of their own; the append of the final event is.
- StoredNumbers.EncodableIsReadBack: assumes that the platform reads back the fractions it prints, because double printing is not modelled; safe integers are exact, and negative zero is zero.
- AttributeWire.EncodedStandsFor: assumes that the platform reads back the fractions it prints, for the same reason.
- AttributeSizes.EstimatedValueBytes: the digits of a number that is no safe integer come from the platform's printing, which is a parameter.
- Accessors, proxies and the property name `__proto__` in decoded data: the decoder reads plain data here, with an object's members in enumeration order.
- CleanupRuns.CleanupRun.RunWork: what steps 1 to 8 do inside is any list of item lines and any outcome, so nothing is claimed about consumers, barriers and durable executions themselves.
- CleanupCampaigns.SkipIsSound: reading the journal's bytes is a choice of surviving lines, because which lines fail to parse is arbitrary; lines of another execution are never in the history.
- The audit's passes, leaks and stable-absence timing: an audit is which surfaces answered in each pass and its status.
- DlqDeletion.CapturedDlqMessageDeletion.DeleteCaptured: lists the ids still pending in any order where the source sorts them.
- DlqTheorems.SweepIsSound: messages reappear and other consumers act at receives only, so a receipt handle stays good until the next receive.
- Building the ownership context from a resource manifest, and the AWS adapters behind every port.
- The other SDK readers, most of admission and deployment assembly, the infrastructure code and the command-line tools: field checks and wiring with easy properties.
