# Brocade console: verified models

This project models the stateful cores of the Brocade console and of two of its tools, and proves what
they are for.

- **The shared draft.** An operator's edits live in a draft that several browser tabs share through local
  storage, without a lock. Writes publish immutable branch heads and then remove the heads they replace;
  submissions are receipts applied at every read. `DraftModel` has the entries and how a push coalesces,
  `DraftSessions` exactly which sessions their draft stands for, `IngressMerge` the three-way merge of ingress
  bodies and `MergeOrder` when it does not depend on the order, `Receipts` and `DraftHeads` the storage,
  `DraftProtocol` the tabs as processes whose calls run in separate steps with failures in between,
  `DraftHistory` and `DraftReads` what holds of the stored history and of reads in every run, `DraftSafety`
  and `DraftRaces` which edits stay, `DraftLostEdit` the one way an edit is lost, and
  `DraftStorages` and `DraftStores` the two classes, whose methods are proved to take the protocol's steps.
- **Live traffic.** `Intervals`, `HourModel`, `HourMeaning`, `HourActivity` and `HourTotals` resample measured
  windows onto 30-second slots over exact reals; `RetainedRows` and `ListOrder` keep and order the rows.
- **The usage-journal repair planner.** `JournalRepair` is the planner; `JournalLaws` and
  `JournalWindows` say what its plans mean.
- **The accounted splice pump** (`SplicePump`) and **feature resolution** (`FeatureRegistry`), from the
  bundled Xray core.
- **Smaller machines**: reachability of chains (`Chains`), hints of the observation stream
  (`ObservationHints`), order and merging of live frames (`RealtimeFrames`).

`dafny verify dfyconfig.toml` checks everything. A loop or an updating object is a method or a class proved
against a function of its inputs or of the old state; the laws are lemmas about those functions and about
runs of them.

## Where the code falls short

- **A push from a tab that shows a conflict can lose other tabs' edits.** `push` remembers the entries and
  branches on display; when the target changed it restores both. While a conflict is shown the entries on
  display do not come from the branches on display, so if the conflict has gone by the time heads are read,
  the push replaces versions whose edits it never displayed. `DraftLostEdit.CarelessPushLosesAnEdit` is a
  run in which this happens; `DraftRaces.PushLosesEditIff` says exactly which edits a push loses, in terms of
  what was displayed and what is stored; `DraftSafety.CarefulIsSafe` gives the visible guard under which none is.
- **Exact heads need finished writes.** A tab that stops between publishing and removing leaves a parent
  that is read again once its replacer is replaced (`DraftHeads.StoppedWriteCanResurface`). Nothing is lost by
  it in any run (`DraftHistory.NothingIsEverLost`), and reads are exact in every run in which no tab vanishes
  in the middle of a write, whenever none is writing (`DraftHistory.ReadIsExact`).
- **Coalescing changes meaning** for a second create of a key, for a create that is deleted again, and for a
  deleted step that is partly written again. `DraftModel.CoalescingIsExact` is exact for one pair and
  `DraftSessions.SessionIsExactIff` for whole sessions, in which later pushes can mask such a pair.
- **Frames without a sequence** break the order of frames received in one millisecond, in two ways. A complete
  one forgets the sequence, and an earlier frame may replace a later one (`RealtimeFrames.KeepsWronglyIff`). One
  that changes no diagnostics inherits the sequence of an earlier millisecond, and a frame from a restarted
  agent is dropped, although the comment on the rule says it must be accepted
  (`RealtimeFrames.DropsWronglyIff`). In every other case the rule holds.
- A delta frame that carries a diagnostic overrides it, and a delta frame marked `mux_unchanged` does not
  confirm the Mux report; the code is followed in both.
- Receipts turn creates of apps, chains and ingresses into updates, not creates of tenants and users; the
  code is followed.

## Model

| member | source | states |
|---|---|---|
| `DraftSafety.EditsLeaveOnlyForAReason` | frontend/src/draft.ts:397-647 | In every interleaving of any number of tabs, with failed writes, failed reads and tabs that vanish, an edit that ever reached a stored head is in some branch the next read returns, unless the history shows it was submitted, overwritten by a push of its key from a tab displaying that very edit, dropped or cleared by a tab displaying it, or given up when a conflict was resolved in favour of a version without it. Holds of every run whose writes are safe |
| `DraftSafety.CarefulIsSafe` | frontend/src/draft.ts:441-445 | A guard an operator can see makes every write of a run safe: nobody starts a push from a tab that shows a conflict (unless that tab holds edits it could not save) |
| `DraftRaces.PushLosesEditIff` | frontend/src/draft.ts:523-536 | After any safe run, the next push, safe or not, takes another edit out of every live head without an excuse if and only if its target changed since it was displayed, the displayed draft lacked the edit, and every live version that has it is among the versions the push was made from |
| `DraftLostEdit.CarelessPushLosesAnEdit` | frontend/src/draft.ts:527-537 | A reachable state, with no failure anywhere, in which a push from a tab that displayed a conflict has removed another tab's edit from every live head although nothing excuses it |
| `DraftRaces.RacingPushKeepsBoth` | frontend/src/draft.ts:528-537 | A push that races an unseen edit of its target leaves two live heads: its own, holding its edit and not the other, and one that still holds the unseen edit |
| `DraftHistory.SubmittedStaysSubmitted` | frontend/src/draft-storage.ts:89-99 | In every run, whatever late writes from stale heads say: a read of a tab that looks at the receipts after a receipt was stored returns no edit it records, nor a create of an object whose create it records |
| `DraftSafety.StepKeepsInv` | frontend/src/draft.ts:415-642 | Every safe step of any tab keeps the invariant behind the safety theorem: heads well formed, every replacement covered by its replacer, every tab's display covering what its next write replaces, receipts recording only submissions |
| `DraftSafety.PlannedCovers` | frontend/src/draft.ts:481-616 | Whatever a push, drop, clear, resolution or retry is about to write holds every edit of every branch it names as a parent, apart from edits the action itself accounts for |
| `DraftSafety.LiveCarrier` | frontend/src/draft-storage.ts:89-99 | An edit of any branch ever written that has not left for an allowed reason is in a branch that is live now |
| `DraftRaces.KeysStayUnique` | frontend/src/draft.ts:541-587 | In every run no stored branch, display or pending action ever holds two entries of one key |
| `DraftHistory.NothingIsEverLost` | frontend/src/draft-storage.ts:101-107 | In every state of every run, however tabs push and stop between publishing and removing parents: every branch ever written starts a chain of replacements that ends in a branch no write replaced, which a read returns |
| `DraftHistory.RunKeepsHistory` | frontend/src/draft-storage.ts:101-107 | In every run, careful or not, ids stay unique, every parent was written before its children, only replaced branches are removed, and every tab stands on branches that were written |
| `DraftHistory.ReadIsExact` | frontend/src/draft-storage.ts:97-106 | In a run in which no tab vanishes between publishing a branch and removing its parents, whenever no tab has parents left to remove, a read returns exactly the branches no write replaced |
| `DraftHeads.StoppedWriteCanResurface` | frontend/src/draft-storage.ts:101-107 | Three writes, the first of whose successors stopped before removing its parent, after which the replaced branch is live again |
| `DraftReads.CleanPassIsSnapshot` | frontend/src/draft-storage.ts:74-87 | In every run, a pass over the records that lists the same keys before and after fetched what was stored when it began, and the storage at its end is the same, whatever other tabs published and removed meanwhile; that ids are never reused comes from the writes |
| `DraftReads.CleanPassReadsAtOnce` | frontend/src/draft-storage.ts:89-99 | So what read makes of a clean pass over the heads is a reading of them at a single moment, which is what the protocol takes a read to be |
| `DraftReads.ReceiptPassIsSnapshot` | frontend/src/draft-storage.ts:74-90 | A pass over the receipt records with the same keys before and after read exactly the receipts stored at every moment of the pass, so it may as well have been one step |
| `DraftReads.ReadIsTwoSteps` | frontend/src/draft-storage.ts:89-99 | The whole of a read, a clean pass over the receipts, then one over the heads, every receipt applied to every record, and replaced records left out, is what seeing the receipts at one moment and the heads at a later one gives |
| `DraftReads.ReceiptsHaveKeys` | frontend/src/draft-storage.ts:109-113 | The receipts of every run can be kept in records of their own keys, each written once and never removed |
| `DraftHeads.PublishKeepsValid` | frontend/src/draft-storage.ts:101-105 | Publishing under a fresh id over written parents keeps ids unique and parents older than children, and makes the branch live |
| `Receipts.ReceiptsCommute` | frontend/src/draft-storage.ts:18-36 | Applying receipts depends only on which receipts there are: any order and any repetition leave the same entries |
| `Receipts.ReceiptIsFinal` | frontend/src/draft-storage.ts:18-36 | After receipts, no submitted edit remains, nor a create of an app, chain or ingress whose create was submitted; every other edit survives with its key, edit id, target and body, such a create as the update of the same object and anything else with its tag; and nothing else is read |
| `Receipts.SettleIsJudge` | frontend/src/draft-storage.ts:18-36 | One submission applied entry by entry is the same as judging each entry by what the receipt states |
| `Receipts.AfterAllIsJudge` | frontend/src/draft-storage.ts:90-96 | The loop over stored receipts in a read is one judgement by everything they state together |
| `Receipts.SentIsLast` | frontend/src/draft-storage.ts:19-19 | Of several submitted items of one key the last counts |
| `Receipts.SettledEdits` | frontend/src/draft-storage.ts:18-36 | Exactly the submitted edits leave a draft, no others |
| `Receipts.ReceiptFacts` | frontend/src/draft-storage.ts:109-112 | The receipt of a batch states exactly the keys and edit ids of the batch |
| `DraftStorages.DraftStorage.Read` | frontend/src/draft-storage.ts:89-99 | Returns each live branch of the history exactly once, with every stored receipt applied |
| `DraftStorages.DraftStorage.Write` | frontend/src/draft-storage.ts:101-107 | Publishes first and then removes the parents: afterwards the records are those of the extended history without the parents |
| `DraftStorages.DraftStorage.Acknowledge` | frontend/src/draft-storage.ts:109-113 | Adds the receipt of the batch to those stored and changes nothing else, wherever its random key sorts |
| `DraftStorages.ReadsLive` | frontend/src/draft-storage.ts:97-98 | Filtering out records some record names as a parent leaves exactly the live branches |
| `DraftStores.DraftStore.Push` | frontend/src/draft.ts:523-589 | An uninterrupted call takes exactly the steps of the protocol for this tab: the newest branch, or the unsaved draft, is the pushed operation on top of the current draft, or of the displayed one if its target changed; the history gains one overwrite of the key as displayed once it is stored; a refused call changes no head |
| `DraftStores.DraftStore.PushIngress` | frontend/src/draft.ts:591-602 | Builds the merged ingress operation from the draft as displayed and pushes it under the ingress key: that is what is written |
| `DraftStores.DraftStore.PutEntry` | frontend/src/draft.ts:541-587 | The in-place edit of the entries is the coalescing function: repeated edits keep their position, moving operations go to the end |
| `DraftStores.DraftStore.Drop` | frontend/src/draft.ts:604-609 | Writes the current draft without the entries of this key that are the displayed edit, the others as often and in the same order, or is refused and changes no head |
| `DraftStores.DraftStore.Clear` | frontend/src/draft.ts:611-616 | Writes the current draft without the entries whose edit id was displayed, the others as often and in the same order, or is refused and changes no head |
| `DraftStores.DraftStore.ResolveConflict` | frontend/src/draft.ts:481-487 | Writes exactly the entries of the first version on offer with the chosen id; the history records what was on offer and what was chosen; a choice no longer offered changes no head |
| `DraftProtocol.ChosenIs` | frontend/src/draft.ts:483-485 | Resolving takes the entries of the version with the chosen id, whatever else is on offer |
| `DraftProtocol.DropLeaves` | frontend/src/draft.ts:607-607 | Dropping removes exactly the entries of the key that are the displayed edit, and keeps the rest in order |
| `DraftProtocol.ClearLeaves` | frontend/src/draft.ts:614-614 | Clearing removes exactly the entries whose edit id was displayed, and keeps the rest in order |
| `DraftStores.DraftStore.RetryPersistence` | frontend/src/draft.ts:464-479 | Writes the unsaved draft over the parents it was based on, with what was done while unsaved now in the history, or stores nothing new when nothing was unsaved |
| `DraftStores.DraftStore.BeginSubmission` | frontend/src/draft.ts:489-497 | Gives out a batch only when the draft is still the one reviewed and none is under way; no head changes |
| `DraftStores.DraftStore.FinishSubmission` | frontend/src/draft.ts:499-521 | A successful batch becomes one stored receipt, or the last one owed, and never a change of heads; after a failed one the tab and the storage are as they were, but for the batch being under way |
| `DraftStores.DraftStore.FlushReceipts` | frontend/src/draft.ts:447-462 | Exactly the first of the owed batches become stored receipts and the others are owed still, in their order; none is owed after a flush that succeeds |
| `DraftStores.DraftStore.Prepare` | frontend/src/draft.ts:441-445 | Goes on only with receipts flushed, heads read and no conflict shown |
| `DraftStores.DraftStore.SyncStorage` | frontend/src/draft.ts:415-439 | Shows what a read of the heads gives, with owed receipts applied, or keeps the display when reading fails |
| `DraftStores.DraftStore.Save` | frontend/src/draft.ts:626-642 | Writes the planned entries over the planned parents and reads back, or keeps them unsaved |
| `DraftStores.DraftStore.constructor` | frontend/src/draft.ts:397-413 | A new tab shows a reading of the heads: the draft, or the versions of a conflict; nothing when reading fails |
| `DraftModel.CoalescedDraftMeansEveryEdit` | frontend/src/draft.ts:538-589 | Over a store of independent keys, replaying the coalesced draft gives exactly what replaying every push in order gives, for sessions of any length whose pushes coalesce faithfully |
| `DraftModel.CoalescingIsExact` | frontend/src/draft.ts:538-570 | Replacing two operations on one key by the merged one preserves their meaning if and only if the second is not a create, is not the deletion of an object created in the draft, and is not a partial step body after the step's deletion |
| `DraftSessions.SessionIsExactIff` | frontend/src/draft.ts:538-589 | For whole sessions: submitting the draft does to every store what replaying every push in order does if and only if, on every key, each create after the first operation directly follows a deletion, the first operation is a create exactly when some create is not followed by a deletion, and no deleted step ends written again |
| `DraftSessions.KeyIsExactIff` | frontend/src/draft.ts:538-570 | The operations pushed on one key do to every object what the one kept of them does if and only if their kinds are such |
| `DraftSessions.DraftOn` | frontend/src/draft.ts:541-587 | For each key the draft holds one operation, the one all pushes on it coalesce to |
| `DraftSessions.FaithfulSessionsAreExact` | frontend/src/draft.ts:538-589 | Sessions whose every push coalesces faithfully are among those whose draft stands for them exactly |
| `DraftSessions.MaskedSession` | frontend/src/draft.ts:538-589 | An object created, deleted and created again coalesces exactly, although the session is not faithful: its unfaithful pair is masked |
| `DraftModel.PushReplays` | frontend/src/draft.ts:541-587 | One push: the new draft replays as the old draft followed by the pushed operation, wherever the entry ends up |
| `DraftModel.OrderingStaysLast` | frontend/src/draft.ts:571-587 | A pushed prune or full order stays behind everything that was in the draft when it was last pushed, however the draft grows |
| `DraftModel.PushKeepsOthers` | frontend/src/draft.ts:541-587 | A push keeps keys unique, leaves every entry of another key as it was, and shows its own edit id |
| `DraftModel.KeysAreObjects` | frontend/src/draft.ts:212-329 | Two operations share a draft key if and only if they act on one object: one tag and target, or creating, updating and deleting one app, chain, ingress, outbound or step; moves of a chain never do |
| `DraftModel.DraftHasUniqueKeys` | frontend/src/draft.ts:541-587 | Every draft built by pushes has one entry per key, of the kind its key names |
| `DraftModel.IngressOpIs` | frontend/src/draft.ts:591-601 | The pushed operation creates the ingress exactly when the draft does so already and otherwise updates it; its body is the panel's own, or its changes merged into the pending body of an ingress |
| `DraftModel.PanelsCommute` | frontend/src/draft.ts:591-602 | Two panels that edited disjoint parts of one ingress leave the same pending operation whichever saves first |
| `IngressMerge.DisjointEditsCommute` | frontend/src/draft.ts:179-205 | When two edits of one base change disjoint paths, merging either over the other gives the same value |
| `IngressMerge.ExplicitUndefinedBreaksCommuting` | frontend/src/draft.ts:189-195 | With an explicit undefined in the base, which JSON cannot carry, the two orders can differ |
| `MergeOrder.CommutesIff` | frontend/src/draft.ts:179-205 | Explicit undefined included: saving two edits that change no value both, in either order, gives the same body if and only if nowhere, where both changed a record, one edit leaves a field undefined that the other sets while its save touches that field |
| `MergeOrder.JsonNeverClashes` | frontend/src/draft.ts:179-205 | On values JSON can carry this never happens |
| `IngressMerge.MergeOntoBase` | frontend/src/draft.ts:179-205 | Merging over an unedited pending value gives a value the same as the panel's own |
| `IngressMerge.UneditedCommutes` | frontend/src/draft.ts:180-180 | When one side changed nothing the other side's value remains, in both orders |
| `IngressMerge.MergeAlongPath` | frontend/src/draft.ts:179-205 | At any depth, where the panel left the base alone the pending value survives, and where it changed a leaf its own value wins |
| `IngressMerge.RemovedEndpointStaysRemoved` | frontend/src/draft.ts:185-188 | A removed endpoint stays removed if and only if the other panel touched only its download child |
| `IngressMerge.MergeInPlace` | frontend/src/draft.ts:179-205 | The loop over a copy of the pending body computes the merge, in whatever order the keys come |
| `IngressMerge.MergeKey` | frontend/src/draft.ts:189-202 | One round of the loop changes only its key, to that key's merged value |
| `IngressMerge.MergeIsDefined` | frontend/src/draft.ts:179-205 | Merging values JSON can carry gives such a value |
| `IngressMerge.SameValueIsStripEquality` | frontend/src/draft.ts:161-173 | The comparison is equality of the values without their explicitly undefined fields |
| `IngressMerge.SameValueEquivalence` | frontend/src/draft.ts:161-173 | The comparison is reflexive, symmetric and transitive |
| `IngressMerge.SameValueIsEquality` | frontend/src/draft.ts:161-173 | On values JSON can carry the comparison is equality |
| `Intervals.MergedIntervals` | frontend/src/user-traffic-realtime.tsx:242-251 | The merge loop gives sorted intervals with strict gaps that cover exactly the times of the input |
| `Intervals.MergedCovers` | frontend/src/user-traffic-realtime.tsx:242-251 | The merged intervals are in normal form and cover the same points as the input |
| `Intervals.GappedIsUnique` | frontend/src/user-traffic-realtime.tsx:242-251 | The normal form is unique: two gapped lists that cover the same times are equal |
| `Intervals.ActiveIntervals` | frontend/src/user-traffic-realtime.tsx:253-263 | The cursor loop gives the window less the zeros, point by point, with lengths adding up to the window |
| `Intervals.ActiveIsRemainder` | frontend/src/user-traffic-realtime.tsx:253-263 | Window less zeros, pointwise and in measure, inside the window |
| `Intervals.IntersectIntervals` | frontend/src/user-traffic-realtime.tsx:265-277 | The two-cursor sweep covers exactly the times both sides cover, in normal form |
| `Intervals.IntersectCovers` | frontend/src/user-traffic-realtime.tsx:265-277 | The intersection is pointwise exact and in normal form |
| `Intervals.OverlapSplits` | frontend/src/user-traffic-realtime.tsx:279-280 | Overlap is additive when a span is cut in two |
| `Intervals.OverlapNone` | frontend/src/user-traffic-realtime.tsx:279-280 | A span the intervals never meet has no overlap |
| `Intervals.FullSpan` | frontend/src/user-traffic-realtime.tsx:279-280 | A span covered without a break has at least its whole length in overlap |
| `HourModel.BytesConserved` | frontend/src/user-traffic-realtime.tsx:345-373 | For any history and any row, each way: bytes shown over all slots plus bytes that fell into blank slots equal the hour total less unplaced bytes |
| `HourModel.NothingLost` | frontend/src/user-traffic-realtime.tsx:345-373 | A row whose bytes all fall in shown slots shows its hour total less unplaced bytes exactly |
| `HourModel.NeverShowsMore` | frontend/src/user-traffic-realtime.tsx:345-373 | With non-negative traffic a row never shows more than its hour total less unplaced bytes |
| `HourModel.DowntimeIsZero` | frontend/src/user-traffic-realtime.tsx:285-373 | A slot wholly inside confirmed zero windows is exactly zero, whatever was reported around it |
| `HourModel.BlankIsUnwatched` | frontend/src/user-traffic-realtime.tsx:332-344 | A slot is blank if and only if the row's measured time falls short of it by more than a millisecond |
| `HourMeaning.BlankIs` | frontend/src/user-traffic-realtime.tsx:332-335 | A slot is blank in either direction if and only if more than a millisecond of it lies outside the measured time |
| `HourMeaning.RowIsMeasuredIn` | frontend/src/user-traffic-realtime.tsx:313-331 | The measured time of a row, moment by moment: with access series only, the windows or confirmed downtime of a record of the node; with forwarding series only, its forwarding windows or downtime; with both, downtime or both kinds of windows at once; without series, any of the three |
| `HourMeaning.ZerosAre` | frontend/src/user-traffic-realtime.tsx:293-298 | Confirmed downtime is the zero windows of the last record of a node, from milliseconds to seconds |
| `HourMeaning.WindowIsSpread` | frontend/src/user-traffic-realtime.tsx:355-372 | One window adds to each hour total the part of its bytes that its active seconds inside the range are of all its active seconds, and to each shown slot the part its own active seconds are, per 30 seconds of the visible width; without active time it adds nothing |
| `HourMeaning.WindowsOfSeries` | frontend/src/user-traffic-realtime.tsx:354-354 | A series counts its windows as given, or for each point the 30 seconds that end there |
| `HourMeaning.SlotsAre` | frontend/src/user-traffic-realtime.tsx:289-292 | The slots are the multiples of 30 seconds from the one that holds the start of the range, cut to the range |
| `HourModel.ZerosAreMeasured` | frontend/src/user-traffic-realtime.tsx:293-331 | Confirmed downtime is measured time, however a row's measured time was put together |
| `HourModel.SlotsPartition` | frontend/src/user-traffic-realtime.tsx:289-292 | The visible slots together see exactly what the whole range sees |
| `HourModel.BoundsTile` | frontend/src/user-traffic-realtime.tsx:289-292 | The slots tile the range: no slot is empty and each starts where the last ended |
| `HourModel.HourRows` | frontend/src/user-traffic-realtime.tsx:285-373 | The loops over nodes and series build one row for every node and every node a series names, each as the row specification says |
| `HourModel.AddWindowInPlace` | frontend/src/user-traffic-realtime.tsx:355-372 | One window is spread over its active time and counted by its visible share |
| `HourModel.SpreadSlots` | frontend/src/user-traffic-realtime.tsx:364-371 | The slot loop adds each shown slot's share and leaves blank slots blank |
| `HourActivity.LastActiveIsLatest` | frontend/src/user-traffic-realtime.tsx:363-363 | A row was last active at the end of the latest window in which it carried bytes outside confirmed downtime, and never if there was none |
| `HourActivity.MarksAreNoted` | frontend/src/user-traffic-realtime.tsx:350-353 | A row is marked forwarding, or as having unplaced bytes, if and only if one of its series is |
| `HourTotals.TotalsConserve` | frontend/src/user-traffic-realtime.tsx:374-392 | Across all rows the total curves carry exactly what the rows were charged, less unplaced bytes and bytes in blank slots |
| `HourTotals.HourCurves` | frontend/src/user-traffic-realtime.tsx:285-393 | From a history to its rows and totals: one row per node and per node a series names; the total curves carry exactly what these rows were charged, are blank exactly where no row was measured for the whole slot, and the peak is the highest rate of a row |
| `HourTotals.TotalShowsAll` | frontend/src/user-traffic-realtime.tsx:374-392 | The total curve shows the sum of what the curves show |
| `HourTotals.Totals` | frontend/src/user-traffic-realtime.tsx:374-392 | The loops compute both total curves, blank exactly where every row is blank, and the highest rate any row shows |
| `RetainedRows.RecencyIsLastActivity` | frontend/src/user-traffic-realtime.tsx:428-428 | The recency a row is evicted by is the time of the last report since its admission in which it carried traffic, and none if there was none |
| `RetainedRows.CurrentIsLastReport` | frontend/src/user-traffic-realtime.tsx:418-446 | A retained row is current if and only if the last report measured it without marking it stale, or was complete and left it out |
| `RetainedRows.LastReportShows` | frontend/src/user-traffic-realtime.tsx:405-457 | Over any run of reports, each retained row shows what the last report to say anything about it said since its last admission: its rates and the time they were measured, or zero from a complete report that left it out; reports without a reading never overwrite |
| `RetainedRows.EvictionIsFair` | frontend/src/user-traffic-realtime.tsx:450-455 | Eviction leaves exactly the limit, changes no kept row, and every evicted row was active no more recently than any kept one |
| `RetainedRows.EvictionIsStable` | frontend/src/user-traffic-realtime.tsx:451-454 | Of rows active equally recently, those retained first are evicted first |
| `RetainedRows.RetainedIsBounded` | frontend/src/user-traffic-realtime.tsx:405-457 | Over any run there are never more than 2048 rows, one per key |
| `RetainedRows.MergedAt` | frontend/src/user-traffic-realtime.tsx:412-449 | What one report makes of each key before eviction |
| `RetainedRows.PutKeepsPlaces` | frontend/src/user-traffic-realtime.tsx:418-418 | A row that is reported again keeps its place in the map, and a new one goes to the end |
| `RetainedRows.RemoveClosesUp` | frontend/src/user-traffic-realtime.tsx:454-454 | An evicted row leaves the others in their places |
| `RetainedRows.MergeInPlace` | frontend/src/user-traffic-realtime.tsx:405-457 | The loops over the map compute the merge, seen keys and eviction as specified |
| `ListOrder.OrderIsPermutation` | frontend/src/user-traffic-realtime.tsx:498-520 | The next order lists exactly the keys of the current rows, each once |
| `ListOrder.ReSortsIff` | frontend/src/user-traffic-realtime.tsx:510-516 | The list is sorted again if and only if it is asked for, the sort changed, the list was empty and is not any more, a row is new in a list sorted by name, or the first reading came in a list sorted by numbers |
| `ListOrder.ReSorted` | frontend/src/user-traffic-realtime.tsx:517-517 | Then the order lists the rows as sorted, and remembers the time, the sort and whether any row had a reading |
| `ListOrder.CardsStayPut` | frontend/src/user-traffic-realtime.tsx:518-519 | Otherwise cards that stay keep their relative order and new cards follow them in report order, and nothing else of the order changes |
| `ListOrder.RenderSettles` | frontend/src/user-traffic-realtime.tsx:498-527 | Rendering again after an order was stored stores nothing, so the render-time update cannot loop |
| `ListOrder.OnlyTheUserMovesCards` | frontend/src/user-traffic-realtime.tsx:489-520 | Through any run of renders with a measured numeric sort, two cards that never leave keep their order, whatever their readings do |
| `ListOrder.SortedListIsCanonical` | frontend/src/user-traffic-realtime.tsx:476-487 | A re-sorted list is in order and does not depend on the order in which rows arrived |
| `ListOrder.CompareIsOrder` | frontend/src/user-traffic-realtime.tsx:476-487 | The comparison is a total preorder, as sorting needs; only rows equal in every criterion tie |
| `ListOrder.CompareIsLexicographic` | frontend/src/user-traffic-realtime.tsx:476-487 | The chain of alternatives compares a list of criteria, most significant first |
| `ListOrder.SortSorts` | frontend/src/user-traffic-realtime.tsx:517-517 | Sorting gives a permutation of the rows in order |
| `JournalLaws.BilledIsGrowthPlusPlan` | scripts/repair-usage-journal-fallback.py:18-72 | For every key at every moment, both ways: bytes billed are real growth plus what the plan subtracts plus the journal counters of excursions that are open or given up |
| `JournalLaws.ExcursionTelescopes` | scripts/repair-usage-journal-fallback.py:39-54 | Over a resolved excursion of any length, bytes billed less its two planned subtractions are the final counter less the counter before it |
| `JournalLaws.EveryExcursionSettledOnce` | scripts/repair-usage-journal-fallback.py:39-55 | The corrections are two per resolved excursion and nothing else; every excursion is resolved once, given up once, or open once |
| `JournalLaws.CorrectedOnce` | scripts/repair-usage-journal-fallback.py:39-54 | No reading is corrected twice, and no id that is not a reading of the stream is corrected at all |
| `JournalLaws.OpensIff` | scripts/repair-usage-journal-fallback.py:51-53 | A reading opens an excursion if and only if it is later than a journal head of its key, none is open, and a process that began no later than the head was read carries on counting |
| `JournalLaws.ClosesIff` | scripts/repair-usage-journal-fallback.py:40-47 | A reading closes the one open if and only if it is later than the head and the journal the excursion left carries on counting |
| `JournalLaws.GivesUpIff` | scripts/repair-usage-journal-fallback.py:48-50 | It ends the one open without a correction if and only if it becomes the head and is neither that journal nor that process carrying on |
| `JournalLaws.HeadIff` | scripts/repair-usage-journal-fallback.py:31-38 | A reading becomes the head of its key if and only if the key is new, or it is later and no counter fell within its epoch |
| `JournalLaws.OpenedIsFallback` | scripts/repair-usage-journal-fallback.py:51-53 | Every excursion of a run goes from a journal reading of its stream to a later reading of a process that began before the journal was read, with counters that did not fall |
| `JournalLaws.ResolvedIsReturn` | scripts/repair-usage-journal-fallback.py:40-47 | Every resolution is of an excursion that was opened, from the process back to the very journal it left, with counters that did not fall |
| `JournalLaws.CorrectionsAreOfReadings` | scripts/repair-usage-journal-fallback.py:66-72 | Every correction of a plan is of two readings of one key of the stream, names both, spans from the later of the first reading and the start of the second process to the second reading, and takes off what the first had counted |
| `JournalLaws.KeysAreIndependent` | scripts/repair-usage-journal-fallback.py:25-54 | Restricting the plan to one node and label is planning that key's readings alone |
| `JournalLaws.RunIsValid` | scripts/repair-usage-journal-fallback.py:39-54 | The head of a key with an open excursion carries the excursion's process epoch, and every correction's real amount is non-negative |
| `JournalWindows.WindowsNeverOverlap` | scripts/repair-usage-journal-fallback.py:66-72 | The time windows corrected for one node and label never overlap, in the order of the plan |
| `JournalLaws.OpenExcursionBills` | scripts/repair-usage-journal-fallback.py:39-54 | While an excursion is open, what was billed since it opened is exactly its head's counter |
| `JournalRepair.MakePlan` | scripts/repair-usage-journal-fallback.py:18-63 | Refuses exactly the streams whose ids do not increase, and otherwise returns the corrections, unresolved excursions and per-node totals of the run |
| `JournalRepair.AddUp` | scripts/repair-usage-journal-fallback.py:56-61 | The totals of each node are the sums over its corrections, and only nodes with corrections appear |
| `SplicePump.Pump.CopyAccountedSplice` | components/xray-core/proxy/splice_accounting_linux.go:19-101 | For any answers of the system: at every moment delivered bytes are a prefix of the source, accounted bytes equal delivered bytes, and consumed bytes are accounted or in the pipe; a clean end leaves the pipe empty and everything delivered; handled=false means nothing was consumed |
| `SplicePump.Pump.ReadReady` | components/xray-core/proxy/splice_accounting_linux.go:46-69 | One fill of the empty pipe, through interruptions and waits: the bytes moved are those in the pipe; an error moves none |
| `SplicePump.Pump.WriteReady` | components/xray-core/proxy/splice_accounting_linux.go:73-98 | One drain: what moved is accounted before anything else, and no byte is dropped or reordered |
| `FeatureRegistry.InvokedExactlyOnce` | components/xray-core/core/xray.go:310-404 | For any calls, and any calls made by callbacks at any depth: a callback has run exactly as often as it was registered if all its dependencies are there, and otherwise waits that often; the features there are those added by the program or by a callback that ran |
| `FeatureRegistry.NeverTooEarly` | components/xray-core/core/xray.go:50-66 | Every invocation, at any depth, finds all its dependencies, so looking up its parameters cannot panic, and answers a registration made before it |
| `FeatureRegistry.OrderIndependent` | components/xray-core/core/xray.go:310-404 | Two orders of the same registrations and features run the same callbacks, each as often, and end with the same features, however deep callbacks register and add |
| `FeatureRegistry.RequiredWaits` | components/xray-core/core/xray.go:358-378 | The required callbacks that wait are exactly those with a missing dependency, as often as the program and the callbacks that ran registered them |
| `FeatureRegistry.InitCheckMeansResolved` | components/xray-core/core/xray.go:254-259 | Passing the check means exactly that every required callback has all its dependencies |
| `FeatureRegistry.PartitionCounts` | components/xray-core/core/xray.go:361-396 | Splitting the waiting callbacks loses and duplicates none |
| `FeatureRegistry.Instance.RequireFeatures` | components/xray-core/core/xray.go:310-347 | Runs the callback at once when its dependencies exist, with every call it makes in turn, and otherwise adds it to the matching waiting list |
| `FeatureRegistry.Instance.RunCallback` | components/xray-core/core/xray.go:50-69 | The callback runs with the features registered at that moment and its calls come back to the instance, in order, each finished with all it led to before the next |
| `FeatureRegistry.ExecAppend` | components/xray-core/core/xray.go:397-402 | Work is done in order: everything an earlier callback led to is over before the next one runs |
| `FeatureRegistry.StepShrinks` | components/xray-core/core/xray.go:397-402 | Every step uses up one of the calls written in callbacks, so every call returns, whatever waiting callbacks it sets off |
| `FeatureRegistry.Instance.AddFeature` | components/xray-core/core/xray.go:350-404 | A running instance only starts the feature; otherwise the feature is registered, the waiting callbacks are split before any runs, and those now complete run, required ones first, with all their own calls |
| `Chains.ChainMembers` | frontend/src/api.ts:3243-3258 | Exactly the machines reachable from the head along forward rules, each once, head first; none when there is no head |
| `Chains.ChainSpine` | frontend/src/api.ts:3217-3234 | Terminates on cyclic tables and returns the path of first any-forward rules from the head, without repetition, ending where there is no such rule, it names nothing, or it leads back |
| `Chains.ChainHead` | frontend/src/api.ts:3206-3215 | The machine of the first ingress with the least id, or none when the chain has no ingress |
| `Chains.HeadIgnoresOrder` | frontend/src/api.ts:3207-3213 | With distinct ids the head does not depend on the order of the ingresses |
| `Chains.HeadIsUnique` | frontend/src/api.ts:3207-3214 | A chain has one head at most |
| `Chains.Explore` | frontend/src/api.ts:3247-3257 | The queue loop finds exactly what the start reaches, each machine once |
| `Chains.SpineIsUnique` | frontend/src/api.ts:3201-3203 | There is only one spine |
| `Chains.SpineIsReachable` | frontend/src/api.ts:3240-3242 | Every machine on the spine is a member |
| `Chains.SpineIsWholeChainIff` | frontend/src/api.ts:3240-3242 | The spine is the whole chain if and only if no machine on it forwards off it |
| `Chains.ByNode` | frontend/src/api.ts:3220-3220 | The last step of a machine decides its rule table |
| `ObservationHints.AcceptedUntilFlushed` | frontend/src/observation-events.ts:43-81 | A hint accepted at any step of any run is still waiting at any later state, unless a step in between flushed it or closed its stream; a flush already running does not count |
| `ObservationHints.KeptWhileStreamIsOpen` | frontend/src/observation-events.ts:43-81 | As long as the stream a hint came from is the open one, the hint is waiting or was flushed after it arrived; streams closed and reopened in between are told apart |
| `ObservationHints.WaitingWasAccepted` | frontend/src/observation-events.ts:24-59 | Whatever waits, and so whatever is flushed, was accepted after the last flush of its key and the last close |
| `ObservationHints.RunKeepsInv` | frontend/src/observation-events.ts:16-99 | In every reachable state: waiting hints have a timer armed or a flush in progress, never both; at most one flush is in flight; hints wait only while a stream is open; a stream is open or about to reopen exactly while the source is used, visible and supported |
| `ObservationHints.HintRefreshes` | frontend/src/observation-events.ts:4-12 | A hint refreshes exactly the query groups of its known domains |
| `ObservationHints.ReadyRefreshesAll` | frontend/src/observation-events.ts:64-66 | A stream that becomes ready refreshes every query group of every domain |
| `ObservationHints.StaleIsIgnored` | frontend/src/observation-events.ts:65-76 | Whatever a stream says that is not the open one changes nothing |
| `ObservationHints.WaitingIsArmed` | frontend/src/observation-events.ts:24-42 | A waiting hint is at most two enabled steps from its flush, also when the stream was closed and reopened during a flush |
| `ObservationHints.UnusedIsQuiet` | frontend/src/observation-events.ts:91-97 | Without users nothing stays open, armed or waiting |
| `ObservationHints.Source.Enqueue` | frontend/src/observation-events.ts:43-50 | Adds the query groups of the known domains of a well-formed hint and arms the timer if need be |
| `ObservationHints.Source.OnTimer` | frontend/src/observation-events.ts:27-36 | Starts one flush of everything waiting |
| `ObservationHints.Source.OnSettled` | frontend/src/observation-events.ts:37-40 | A settled flush re-arms for what arrived meanwhile |
| `ObservationHints.Source.OnReset` | frontend/src/observation-events.ts:75-79 | A reset of the open stream closes it and arms reopening; a stale stream's reset does nothing |
| `ObservationHints.Source.RetainOne` | frontend/src/observation-events.ts:85-90 | The first user opens the stream; like every handler it extends the run the object carries, so the laws of runs hold of its fields |
| `ObservationHints.Source.ReleaseOne` | frontend/src/observation-events.ts:91-97 | The last user closes it |
| `RealtimeFrames.KeepsTheLatest` | frontend/src/realtime-order.ts:8-19 | When every frame carries a sequence, the kept frame has the greatest receipt time and sequence of all delivered |
| `RealtimeFrames.DeliveryOrderIsIrrelevant` | frontend/src/realtime-order.ts:8-19 | Any two deliveries of the same sequenced frames keep the same receipt time and sequence |
| `RealtimeFrames.ReceiptIsLatest` | frontend/src/realtime-order.ts:10-11 | With or without sequences the kept receipt time is the latest delivered |
| `RealtimeFrames.UnsequencedFrameForgets` | frontend/src/realtime-order.ts:14-18 | A complete frame without a sequence in between, and an earlier frame of the same millisecond replaces a later one |
| `RealtimeFrames.UnsequencedFrameInherits` | frontend/src/node-realtime.tsx:86-88 | A frame without a sequence that changes no diagnostics passes on the sequence of an earlier millisecond, and a later frame numbered from one again is dropped |
| `RealtimeFrames.KeepsWronglyIff` | frontend/src/realtime-order.ts:14-18 | A frame is kept although an accepted one is later by the rule if and only if it shares the last millisecond, a complete frame without a sequence came after a greater sequence of that millisecond, and none greater came since |
| `RealtimeFrames.DropsWronglyIff` | frontend/src/realtime-order.ts:12-18 | A frame is dropped although no accepted one is later if and only if it shares the last millisecond, the last sequence accepted is of an earlier millisecond and greater, and only frames without a sequence that change no diagnostics came since |
| `RealtimeFrames.JudgedRightlyIff` | frontend/src/realtime-order.ts:8-19 | In every other case, for any delivery, a frame is dropped exactly when an accepted frame is later in receipt time, or in sequence within the millisecond |
| `RealtimeFrames.KeptIsAcceptedMerged` | frontend/src/node-realtime.tsx:127-133 | A dropped frame leaves no trace: what is kept is the accepted frames merged one on another |
| `RealtimeFrames.DiagnosticIsLastWord` | frontend/src/node-realtime.tsx:76-94 | Each diagnostic shows what the last accepted frame to carry it said, looking back no further than the last complete frame, and is cleared when none of these carries it |
| `RealtimeFrames.MuxIsLastReport` | frontend/src/node-realtime.tsx:66-103 | The Mux report shown is the last one carried, passed on or confirmed by every later frame; only its time changes, to the sampling time of the last confirming frame |
| `RealtimeFrames.RatesAreNewest` | frontend/src/node-realtime.tsx:84-92 | User rates, sampling time and markers are always those of the newest accepted frame |
| `RealtimeFrames.Receiver.Accept` | frontend/src/node-realtime.tsx:127-133 | Keeps the merge of a frame that is not older, and nothing once stopped |

## Left out

- Switching the operator and starting without storage: `DraftStore` here has one owner and storage that exists, and `retryPersistence` does not rebuild it.
- Interference inside a call of the `DraftStore` class: its methods are proved for uninterrupted calls; calls interrupted by other tabs are the steps of `DraftProtocol`, on values.
- Aliasing of the `entries` array with the entries of `branches[0]`: the model keeps values. In the code a push edits that array in place, which shows only if `resolveConflict` is called without a conflict on display while a write is unsaved.
- Encodings: keys are structured instead of strings, branches are values instead of JSON text, `randomKey` gives ids that were never used; `readEntries`, canonical DNS selectors and the ordering of WireGuard link ends in `entryOf` are not modelled.
- Labels, error texts, listeners, the version counter and `previewKey` of the draft: display only.
- The server's real treatment of operations: the Rust store is not part of this model; operations act on a store whose keys are independent, in which only creates and updates of a missing node are refused, and nothing more is claimed of `put_step`.
- DraftModel.CoalescedDraftMeansEveryEdit: stated for sessions whose pushes coalesce faithfully; DraftSessions.SessionIsExactIff says exactly for which sessions it holds.
- The retries of `values` in the storage: a read pass that never comes out clean fails, and a failed read is a step of the protocol.
- The older hour model used when no node reports windows, and hour ranges that are empty or reversed.
- Tenant and user names on hour rows; the country and display names of rows.
- Per-source breakdowns, forwarding rates and ingress counts of retained rows (`retainSources`): they are carried along as the rates are.
- HourModel.HourRows: rounding of floating-point numbers is not modelled; reals are exact, and the 0.001-second tolerance is kept.
- Collation of names: a row carries the rank of its name and of its key.
- FeatureRegistry.Instance.RunCallback: the calls a callback makes are a fixed list, so a callback that decides by what it finds is not modelled; nor are the assignability of parameters, what callbacks return, and two threads calling the registry at once.
- File descriptors, poll waits and rate limits of the pump: the environment answers each request from an arbitrary script of answers.
- SplicePump.Pump.CopyAccountedSplice: handled=true can also be returned with nothing consumed, as in the code; only the other direction is promised.
- The transport of live frames and hints (event streams, polling, timers firing): each is an event that may come at any time.
- Rendering, charts, animation and everything else of the user interface.
