# Verified model of the Proton Drive client's local state

The client keeps three things on the user's machine that must not go wrong: writes that have been accepted but
not uploaded, a single-use refresh token, and a budgeted content cache. This project models the code that keeps
them, with its failures and crashes, and proves what that code promises. It also models five self-contained
algorithms: glob matching, line simplification, civil dates, and two small text protocols.

Verify everything with `dafny verify dfyconfig.toml`.

## How it is built

- **Accepted writes** (`WriteFiles`, `Durability`, `DurableRuns`). `WriteStore` is the disk below `scratch/`,
  `staging/` and `recovery/`. Each call takes the outcomes of its disk steps as arguments and records in `passed`
  every disk state it goes through, so a claim about all of `passed` is a claim about a crash at any point. A write
  is *kept* when its exact bytes are in staging, in recovery, or in scratch beside a sidecar: what the next `open`
  does not delete. `DurableRuns.Run` plays any script of calls, failures and crashes.
- **Session tokens** (`TokenRotation`, `TokenSink`, `TokenRecovery`, `RetryHandoff`). A step system with any number
  of sinks around one keyring blob and one kernel slot; tokens are positions along a chain per session. `TokenSink`
  is the object itself, each of whose calls is shown to be a run of those steps. `RetryHandoff` is the interleaving
  of `rotated` calls and retry threads around the `retrying` flag. What a run of a step system is, `Runs` says once.
- **Content cache** (`Lru`, `CacheIndex`, `CacheDirectory`, `ContentCache`, `BlockGeometry`, `BlockCache`,
  `BlobStore`). The index, the eviction rule and the batched loop that implements it, the directory walk that
  rebuilds the index, running totals, block geometry, and what reads may be served after stores and crashes.
- **Algorithms** (`Glob`, `Simplify`, `CivilDate`, `DateText`, `Text`, `MountTable`, `Menu`).

## Where the code does less than its comments say

Each of these has the exact condition under which the code does hold, for all inputs, and a run or a family of
inputs in which it does not.

- `preserve_write_at` can lose a write that was marked durable: if the marker has moved to staging, the directory
  sync then fails, and the bytes are renamed back, they stand in scratch without a marker until a new one is
  published. `PreserveWriteAt` states, disk step by disk step, that this is the only window; `StrandedWriteIsLost`
  is the run.
- A `store_block` cut off between rename and sidecar does not always fail validation: under another geometry the old
  sidecar can vouch for the new bytes. `HarmlessCutServesRightBytes` and `OtherCutServesWrongBytes` give the exact
  condition.
- The same for whole files, when a store begins under a tag that is on disk above other bytes of the same length
  (`StoreReadsExactlyIff`, `ReusedTagReadsOtherBytes`).
- The eviction loop can stop over its cap with evictable entries left, behind 64 pinned ones
  (`BatchedIsExactUnlessStalled`, `PinnedBatchStopsEviction`).
- The pool shares of a budget of 1 to 3 bytes add up to more than the budget (`SharesFit`).
- `evict` leaves thumbnails of types other than 1 and 2 on disk without a row (`ContentCache.Cache.Evict`).
- A second sink in the same process can take the kernel slot from the first one, whose live token is then lost with
  the process (`CrashResumesLiveIff`, `SecondSinkLosesLiveToken`).
- A retry thread that cannot be spawned leaves its rotation unsaved (`HandoffLosesNoWork`, `FailedSpawnStrands`).
- The kernel escapes only space, tab, newline and backslash in a mountpoint, and the parser splits at any other
  whitespace too (`LineReadsBackIff`, `NoBreakSpaceCutsPath`).

## Model

| member | source | states |
|---|---|---|
| `Durability.WriteStore.CreateScratch` | crates/pdfs-core/src/cache.rs:1253-1273 | A new scratch file appears under an unused name and nothing kept is lost. |
| `Durability.WriteStore.MarkScratchDurable` | crates/pdfs-core/src/cache.rs:1301-1321 | The sidecar is in place exactly when its rename happened, the old one otherwise, and on success the bytes beside it are kept; whatever step fails, every state on the way is well formed and keeps every write, and no bytes change. |
| `Durability.WriteStore.ClearScratchDurable` | crates/pdfs-core/src/cache.rs:1326-1328 | Gives up only the one scratch write whose marker it removes, and nothing if the marker could not be removed. |
| `Durability.WriteStore.DiscardStaged` | crates/pdfs-core/src/cache.rs:1709-1712 | Removes what of the pair can be removed; gives up only the write that was staged there, and only if its bytes went. |
| `Durability.WriteStore.DiscardRecovered` | crates/pdfs-core/src/cache.rs:1492-1495 | Removes what of the pair can be removed, the sidecar first; gives up only the write that was recovered there, and only if its bytes went. |
| `Durability.WriteStore.StageWriteAt` | crates/pdfs-core/src/cache.rs:1521-1552 | For every failing step, every state keeps every write; success exactly when no needed step fails, with bytes and sidecar at the destination; the source is gone exactly after a rename or a success; bytes that got to staging are kept even if a later step fails. |
| `Durability.WriteStore.PreserveWriteAt` | crates/pdfs-core/src/cache.rs:1569-1704 | For every combination of failing steps: success exactly as listed, with bytes and complete sidecar at the destination and the source gone; otherwise the exact place reported, which holds the exact bytes, with the marker there is; whether the write is kept at the end, as an equivalence over the failures and the marker the source had, marked or not; every other write is kept after every disk step, and a marked source after exactly those disk steps at which it is not back without a marker. |
| `Durability.WriteStore.RescueScratch` | crates/pdfs-core/src/cache.rs:1339-1380 | Any order of entries and any failures: every kept write stays kept, nothing new becomes kept or appears; with no failure every pair has left scratch, its bytes are in recovery, and its sidecar too if it is readable. |
| `Durability.WriteStore.DiscardUnmarkedScratch` | crates/pdfs-core/src/cache.rs:1382-1395 | Only unmarked scratch entries go; nothing kept is lost. |
| `Durability.WriteStore.Open` | crates/pdfs-core/src/cache.rs:546-550 | Exactly the writes kept before are kept after, at every point of it; staging is untouched, and nothing is in recovery but what was there or in scratch under the same name; with no failure each marked scratch write is offered by `recovered_writes` with its bytes and sidecar, and scratch holds no bytes. |
| `Durability.RescuedIsOffered` | crates/pdfs-core/src/cache.rs:1433-1463 | A rescued pair is among the recovered writes, with its own bytes and sidecar. |
| `Durability.StrandedIsLost` | crates/pdfs-core/src/cache.rs:1636-1650 | Bytes back in scratch without a marker are not kept. |
| `DurableRuns.Run` | crates/pdfs-core/src/cache.rs:1301-1704 | In every script of calls, I/O failures and crashes between any two disk steps, at every call boundary every write vouched for and not given up is on disk byte for byte where `open` keeps it. Vouched for is what was marked, what got to staging, and what `preserve_write_at` leaves kept; given up only what was overwritten, discarded, unmarked by a removal that succeeded, or, at that disk step or at the end of the call, back in scratch without a marker. |
| `DurableRuns.StrandedWriteIsLost` | crates/pdfs-core/src/cache.rs:1628-1650 | A concrete run in which a marked write is lost. |
| `TokenRotation.FlushKeepsToItsBlob` | crates/pdfs-core/src/auth.rs:887-901 | A flush leaves an absent blob absent and another session's blob untouched, and puts into its own only a pair issued together and no older. |
| `TokenRotation.FlushDelivers` | crates/pdfs-core/src/auth.rs:1001-1033 | With a working keyring the new pair is stored exactly when the blob still holds this sink's last token or already the new one; either way the rotation settles. |
| `TokenRotation.StoredTokensNeverGoBack` | crates/pdfs-core/src/auth.rs:887-901 | Over every run of any number of sinks, logins, logouts and refusals, a session in the blob was there before with the same or an older token: none comes back, none moves backwards. |
| `TokenRotation.LoggedOutStaysOut` | crates/pdfs-core/src/auth.rs:1001-1033 | After a logout that deletes the blob, no run of any sinks ever puts a session from before it back. |
| `TokenRotation.InvHolds` | crates/pdfs-core/src/auth.rs:1001-1044 | In every state no stored, kept or unsaved token is ahead of the server, pairs stay together, and an unsaved rotation is ahead of the token it spent. |
| `TokenSink.TokenSink.Flush` | crates/pdfs-core/src/auth.rs:1001-1033 | The blob changes only in its two tokens, and exactly when it is this session's, holds this sink's last token or already the new one, and the keyring works; an error exactly when the keyring refuses to answer or to take that; the slot changes only as `settle` says; every flush is a flush step of this sink, followed on success by its settle step, and nothing else. |
| `TokenSink.TokenSink.KeepInKernel` | crates/pdfs-core/src/auth.rs:937-959 | If the kernel takes it the slot has the rotation together with the token it spent; if not, nothing changes. |
| `TokenSink.TokenSink.Settle` | crates/pdfs-core/src/auth.rs:1039-1044 | The rotation is dropped, and the slot cleared only if this sink had kept it there. |
| `TokenSink.TokenSink.Rotated` | crates/pdfs-core/src/auth.rs:920-932 | The same for a whole call: what blob and slot are afterwards, when it succeeds, and the steps of this sink it consists of; it ends with the rotation stored or dropped for good, or still held and, if the kernel took it, kept there. |
| `TokenRecovery.CrashResumesLiveIff` | crates/pdfs-core/src/auth.rs:629-666 | At every point of every run with any number of sinks, one per session: a crash resumes a session whose live token the process had with that token if and only if no rotation was outstanding, or its sink had got it into the kernel slot and no other sink's keep or settle, no logout and no other resume has taken the slot since. |
| `TokenRecovery.HasLiveFromOpening` | crates/pdfs-core/src/auth.rs:629-645 | A sink has the live token from a login, or from a readable resume exactly if that resume finds it, and keeps having it as long as it lives. |
| `TokenRecovery.SoloInvHolds` | crates/pdfs-core/src/auth.rs:629-666 | With one sink at a time, through any number of crashes and resumes, blob, slot and sink agree with the server about the live token. |
| `TokenRecovery.CrashedSessionResumesLive` | crates/pdfs-core/src/auth.rs:629-666 | In every such run a session not signed out and not lost before resumes with the live token if and only if no rotation is outstanding or the sink put it into the slot or found it there; also inside `rotated`, and between the keyring write and `settle`. |
| `TokenRecovery.StaleRecordIsDropped` | crates/pdfs-core/src/auth.rs:648-666 | A record of another login, or already written, is dropped and the session starts from the blob. |
| `TokenRecovery.SecondSinkLosesLiveToken` | crates/pdfs-core/src/auth.rs:1039-1044 | A concrete run with two sinks in which the live token cannot be resumed. |
| `RetryHandoff.HandoffLosesNoWork` | crates/pdfs-core/src/auth.rs:964-997 | Under every interleaving one thread at most owns the flag, it is up exactly while one does, and an unsaved rotation is without a thread that carries it exactly when a spawn failed with no other thread left to carry it and no rotation has come since. |
| `RetryHandoff.InvKeptBySwap` | crates/pdfs-core/src/auth.rs:964-967 | A call that finds the flag up can leave its rotation to the owner. |
| `RetryHandoff.InvKeptByRelease` | crates/pdfs-core/src/auth.rs:983-991 | After releasing the flag the thread still looks again, so no rotation is orphaned. |
| `RetryHandoff.FailedSpawnStrands` | crates/pdfs-core/src/auth.rs:993-996 | A failed spawn does leave a rotation unsaved with no thread. |
| `Lru.VictimsAreShortestPrefix` | crates/pdfs-core/src/cache.rs:1124-1135 | The rule drops the unpinned entries of an oldest-first prefix, the shortest that reaches the cap, and stays over only with nothing unpinned left. |
| `Lru.VictimsUnpinned` | crates/pdfs-core/src/cache.rs:1168-1171 | No pinned entry is ever dropped. |
| `Lru.BatchedIsExactUnlessStalled` | crates/pdfs-core/src/cache.rs:1155-1182 | The batched loop drops exactly what the rule drops if and only if it does not meet, over the cap, a fully pinned batch with an unpinned entry behind it. |
| `Lru.NeverStalls` | crates/pdfs-core/src/cache.rs:1179-1181 | It does not when no 64 consecutive entries are all pinned. |
| `Lru.BatchedIsPrefix` | crates/pdfs-core/src/cache.rs:1155-1182 | Stalled or not, the loop drops the unpinned entries of an oldest-first prefix, the last of them only because the pool was still over its cap. |
| `Lru.PinnedBatchStopsEviction` | crates/pdfs-core/src/cache.rs:1179-1181 | A pool that opens with 64 pinned entries loses nothing. |
| `Lru.UnpinnedReachesCap` | crates/pdfs-core/src/cache.rs:1121-1123 | With nothing pinned the loop always reaches the cap. |
| `CacheIndex.SharesFit` | crates/pdfs-core/src/cache.rs:1100-1116 | The three shares fit the budget if and only if it is 0 or at least 4 bytes. |
| `CacheIndex.SharesAre` | crates/pdfs-core/src/cache.rs:1100-1116 | Blobs may have 70, blocks 25 and thumbnails 5 parts in a hundred, to the byte below and at least one byte. |
| `CacheIndex.UpsertKeeps` | crates/pdfs-core/src/db/cache.rs:20-32 | A touched row replaces its key's row, keeps the order, and adds at most its size to its pool. |
| `CacheIndex.UpsertMembers` | crates/pdfs-core/src/db/cache.rs:20-32 | The new row is in with its time, the key's old one is out, and the others are as they were. |
| `CacheIndex.PassTakesOldest` | crates/pdfs-core/src/cache.rs:1124-1135 | What a budget pass takes is unpinned, and was last used no later than anything unpinned that it leaves. |
| `CacheIndex.PassTakesNoMore` | crates/pdfs-core/src/cache.rs:1124-1135 | It takes the last entry only because the pool was over its cap with it. |
| `CacheDirectory.Reconcile` | crates/pdfs-core/src/cache.rs:607-672 | Walking the entries in any order, with any removals failing: exactly the temporary files and the tags without a data file go, and the rows equal the data files with their sizes and times. |
| `CacheDirectory.SweptViews` | crates/pdfs-core/src/cache.rs:619-648 | With every removal done no temporary file is left, of the tags exactly those whose data file is there, and every geometry sidecar. |
| `ContentCache.Open` | crates/pdfs-core/src/cache.rs:577-582 | From any directories a crash can leave, the rows equal the data files, no temporary file and no tag without its blob remain, and the totals equal the index. |
| `ContentCache.Cache.FlushTouches` | crates/pdfs-core/src/cache.rs:1066-1077 | Every row that was hit gets the time of its last hit, the order follows, and neither keys, sizes nor sums change. |
| `ContentCache.Cache.EvictBatch` | crates/pdfs-core/src/cache.rs:1164-1178 | One batch removes file, tag and row of exactly its victims and counts what it skipped. |
| `ContentCache.Cache.EvictPool` | crates/pdfs-core/src/cache.rs:1150-1182 | The loop terminates and removes exactly what the batched rule says. |
| `ContentCache.Cache.EnforcePool` | crates/pdfs-core/src/cache.rs:1136-1185 | Drops file, tag and row of exactly what the batched rule drops: nothing on the no-query fast path, else in the order of the last use with every hit counted; with nothing pinned the pool ends within its share; totals equal the index or are as they were. |
| `ContentCache.Cache.Store` | crates/pdfs-core/src/cache.rs:808-831 | Rows and files still agree, totals still cover the index, the pool loses exactly its victims in the order of last use, without exemptions it ends within its share, and no pinned blob goes. |
| `ContentCache.Cache.SetBudget` | crates/pdfs-core/src/cache.rs:2016-2021 | Each pool goes through one pass in the order of last use, and what stays is as it was; pinned blobs stay, and all of a pool within its share; blocks and thumbnails end within their shares of the new budget whatever is pinned, blobs too with nothing pinned. |
| `ContentCache.Cache.Usage` | crates/pdfs-core/src/cache.rs:1953-1958 | With every pool within its share usage is within every budget of at least 4 bytes. |
| `ContentCache.Cache.ClearUnpinned` | crates/pdfs-core/src/cache.rs:2027-2066 | Exactly the pinned blobs remain, rows, files and tags, and the bytes reported are those removed. |
| `ContentCache.Cache.EmergencyEvict` | crates/pdfs-core/src/cache.rs:1398-1423 | The oldest unpinned blob among the first ten goes, with file and tag, and the total follows without underflow. |
| `ContentCache.Cache.Evict` | crates/pdfs-core/src/cache.rs:1717-1748 | Exactly the rows of the uid go; rows and files stay equal if and only if it had no thumbnail of a type other than 1 and 2. |
| `ContentCache.Play` | crates/pdfs-core/src/cache.rs:1080-1185 | In every sequential run with any pins and budgets: row and file agreement and covered totals throughout, every pool that its last enforcement could bound is within its share, and the blob of a uid that stays pinned and is not dropped by name is never evicted. |
| `ContentCache.Run` | crates/pdfs-core/src/cache.rs:2016-2021 | So in every run blocks and thumbnails are within their shares from the first `set_budget` on whatever is pinned; with nothing pinned blobs are too, and usage is within every budget of at least 4 bytes; rows equal files unless an odd thumbnail is stored. |
| `BlockGeometry.FromSizes` | crates/pdfs-core/src/cache.rs:157-173 | A prefix sum over the table without its trailing empty blocks, of the same total. |
| `BlockGeometry.IndexAt` | crates/pdfs-core/src/cache.rs:203-211 | `None` exactly at or past the end, else the one block that contains the offset. |
| `BlockGeometry.Spans` | crates/pdfs-core/src/cache.rs:215-226 | Contiguous blocks from the one that holds the first byte of the clipped range to the one that holds its last, all non-empty ones overlapping it, none that overlaps missing. |
| `BlockGeometry.OnePlan` | crates/pdfs-core/src/cache.rs:215-226 | That determines the blocks: a range has one plan only. |
| `BlockGeometry.Uniform` | crates/pdfs-core/src/cache.rs:176-179 | Agrees everywhere with division by the block size and with `block_len`. |
| `BlockCache.BlockStore.StoreBlock` | crates/pdfs-core/src/cache.rs:1002-1043 | Every block present still holds the bytes its sidecar says, and of this index exactly this revision and span is now cached. |
| `BlockCache.BlockStore.CachedBlock` | crates/pdfs-core/src/cache.rs:969-992 | A miss, or exactly the bytes of the span asked for, after any stores under any geometries. |
| `BlockCache.BlockStore.RecordedGeometry` | crates/pdfs-core/src/cache.rs:893-905 | The recorded table, less its trailing empty blocks, exactly when it is for this revision and its sizes add up to it. |
| `BlockCache.BlockStore.CopyCachedTo` | crates/pdfs-core/src/cache.rs:762-802 | True exactly when the whole file is cached and cloned, or every block of the plan is cached and written; then the whole content is at the destination; false leaves it as it was if nothing was tried, else gone. |
| `BlockCache.HarmlessCutServesRightBytes` | crates/pdfs-core/src/cache.rs:1014-1034 | A store cut off before its sidecar is harmless for every file when the old sidecar names the same revision and start, or a range too short. |
| `BlockCache.OtherCutServesWrongBytes` | crates/pdfs-core/src/cache.rs:1014-1034 | In every other case some file is then served wrong bytes. |
| `BlobStore.StoreReadsExactlyIff` | crates/pdfs-core/src/cache.rs:705-748 | Whatever is on disk when a store starts: at every crash point from then on until the next start, every read with its tag is a miss or the exact slice of its bytes, if and only if the tag does not already stand above other bytes of the length it names. |
| `BlobStore.NewestTagReadsExactly` | crates/pdfs-core/src/cache.rs:808-831 | So when tags are reused only for the bytes they were last used for, this holds at every point of every run. |
| `BlobStore.CompletedStoreReads` | crates/pdfs-core/src/cache.rs:808-824 | A completed store reads back every slice, byte for byte and as long as asked for and there is. |
| `BlobStore.ReusedTagReadsOtherBytes` | crates/pdfs-core/src/cache.rs:819-821 | A concrete run with a reused tag that reads other bytes. |
| `Glob.GlobMatch` | crates/pdfs-core/src/opener.rs:446-479 | True exactly for the names in the pattern's language, for every pattern and name, and it terminates. |
| `Glob.StarSkips` | crates/pdfs-core/src/opener.rs:456-460 | In that language `*` stands for any run of characters. |
| `Glob.PlainIsPointwise` | crates/pdfs-core/src/opener.rs:461-468 | A stretch without `*` matches character by character, `?` any one and every other itself. |
| `Glob.NewStarSuffices` | crates/pdfs-core/src/opener.rs:456-460 | At a new `*` the alternatives of the earlier one may be forgotten. |
| `Simplify.Simplify` | scripts/natural-earth-land.py:37-53 | The flags end up set exactly for the points of the recursive definition; an empty line is an error; it terminates. |
| `Simplify.FindSplit` | scripts/natural-earth-land.py:44-49 | None if and only if every interior point is within the tolerance; else the first of the farthest, which is beyond it. |
| `Simplify.SimplificationIsNear` | scripts/natural-earth-land.py:37-53 | The ends are kept, and every dropped point is within the tolerance of the segment between its nearest kept neighbours. |
| `Simplify.KeptWasNeeded` | scripts/natural-earth-land.py:44-52 | Every kept interior point was the farthest, beyond the tolerance, from the segment of two kept points around it. |
| `Simplify.SelectedByRank` | scripts/natural-earth-land.py:53 | The result is exactly the flagged points, in their order. |
| `CivilDate.CivilFollowsCalendar` | crates/pdfs-cli/src/main.rs:1806-1817 | Every day count gives a valid Gregorian date, and the next count the next calendar day. |
| `CivilDate.EpochIsDayZero` | crates/pdfs-cli/src/main.rs:1806-1817 | Day 0 is 1970-01-01. |
| `CivilDate.DaysRoundTrip` | crates/pdfs-core/src/takeout.rs:611-618 | The date of every day count counts back to it. |
| `CivilDate.DateRoundTrip` | crates/pdfs-core/src/takeout.rs:611-618 | The day count of every valid date gives the date back. |
| `CivilDate.DaysAdvance` | crates/pdfs-core/src/takeout.rs:611-618 | The day count grows by one from each valid date to the next. |
| `DateText.PrintersAgree` | crates/pdfs-cli/src/main.rs:1917-1934 | For every second count both printers print the date whose day number is its floor by 86400, and the hour and minute within the day. |
| `DateText.ExifDatePrintsBack` | crates/pdfs-core/src/exiftime.rs:51-69 | An EXIF time in digits prints back as its own date if and only if that date exists and the time is not 23:59:60. |
| `DateText.ExifTimeIsAccepted` | crates/pdfs-core/src/exiftime.rs:51-69 | Which texts in digits are accepted. |
| `DateText.ExifTimeIsItsTime` | crates/pdfs-core/src/exiftime.rs:51-69 | Hour, minute and second within the day are those of the text, unless it is a leap second. |
| `Text.LastLine` | crates/pdfs-core/src/localindex.rs:239 | A last line without a newline is a line, carriage return and all. |
| `Text.OneWordOnly` | crates/pdfs-core/src/localindex.rs:240 | A line of one word or none has no second field. |
| `MountTable.UnescapeMountField` | crates/pdfs-core/src/localindex.rs:251-271 | The loop computes the unescaping, with malformed escapes kept verbatim. |
| `MountTable.UnescapeInvertsEscape` | crates/pdfs-core/src/localindex.rs:251-271 | It inverts octal escaping of any set of characters that contains the backslash, for every path. |
| `MountTable.NoEscapeUnescapesToItself` | crates/pdfs-core/src/localindex.rs:251-271 | A text without an escape comes back as it is, lone backslashes included. |
| `MountTable.BelowIsInside` | crates/pdfs-core/src/localindex.rs:243-245 | Strictly below a directory is every name in it and what is below that, not the directory itself, and nothing in a directory beside it. |
| `MountTable.TableReads` | crates/pdfs-core/src/localindex.rs:237-246 | From every table of absolute mountpoints, exactly those strictly below the root, in order, each up to its first unescaped whitespace. |
| `MountTable.TableRoundTrips` | crates/pdfs-core/src/localindex.rs:237-246 | So a table whose paths have no unescaped whitespace comes back whole. |
| `MountTable.LineReadsBackIff` | crates/pdfs-core/src/localindex.rs:237-246 | A line gives its path back if and only if the path has no unescaped whitespace. |
| `MountTable.NoBreakSpaceCutsPath` | crates/pdfs-core/src/localindex.rs:237-246 | A mountpoint with a no-break space in it is read only up to that space. |
| `Menu.Render` | crates/pdfs-core/src/menu.rs:324-336 | The payload is the entries in order, one newline each. |
| `Menu.EchoSelectsItsItem` | crates/pdfs-core/src/menu.rs:305-319 | For any items, an echoed entry, with or without its icon, selects the first item of that label if and only if the label is non-empty, free of newline, carriage return and separator, and has no trailing whitespace. |
| `Menu.LineIsRead` | crates/pdfs-core/src/menu.rs:305-319 | What any line is read as: cancelled exactly if there is only whitespace before its icon field, else the first item with that text as its label, else the text itself. |
| `Menu.IconFollowsLabel` | crates/pdfs-core/src/menu.rs:324-336 | An item's icon is what follows the first separator of its entry. |
| `Menu.DistinctLabelsSelectThemselves` | crates/pdfs-core/src/menu.rs:305-319 | With distinct labels each clean one selects its own index. |
| `Menu.PayloadLines` | crates/pdfs-core/src/menu.rs:324-336 | With icon names free of newlines the payload has exactly one line per item, in order, less a carriage return at its end. |
| `Menu.ShownLineSelectsItsItem` | crates/pdfs-core/src/menu.rs:305-336 | Interpreting any line of the rendered payload selects the first item with that line's label if and only if the label is clean. |

## Left out

- Disk semantics: renames are atomic and steps reach the disk in order; lost page-cache writes and fsync internals are not modelled.
- Names: stems are unique numbers without dots, as the name generators intend; the generators themselves are not modelled.
- Sidecar fields beyond uid, length and completeness, and `StagedWrite::covers`, would add only easy members.
- The `recovery_pending` flag, which only spares directory scans, and `staged_writes`.
- Token expiry, SRP login, two-factor and human verification, base64 and JSON, and the SDK's own refresh logic, which is taken to deliver rotations one at a time.
- A login whose blob the keyring refuses is taken to end its process.
- Recoverability of tokens with several sinks of one session, in several processes: the code does not promise it.
- Concurrent stores racing `reseed_totals`, failing database calls, failing file removals in evictions, and totals beyond 64 bits.
- Files and directories under names that are not the cache's own, file metadata that cannot be read, and block geometry tables whose sum exceeds 64 bits.
- Thumbnails' own tags, pins beyond the set of pinned uids, and legacy pin import.
- `Simplify.Simplify`: distances are exact reals and the distance function is a parameter; floating-point rounding is not modelled.
- `matches` and the extension classes above the glob matcher, EXIF offsets and container parsing, the launcher process, and the mount scan itself.
- Text is a sequence of characters; invalid UTF-8 is not modelled.
