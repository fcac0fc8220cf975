# Dispatcharr: verified models of the stateful cores

Dafny models of the parts of Dispatcharr whose correctness depends on state: what the log collector
keeps, drops and rotates; what a rehash of the streams leaves of channels and streams; which channel
numbers are given out; what the shared caches may hold; how a log file is followed, folded into
records and cut; and what the schedule rows, the login throttle and the channel order look like
after any number of calls. Tables, Redis and files are maps, sets and byte sequences; a clock is an
integer; hashes, regular expressions and time stamps are arbitrary functions.

Code that changes state is a class or a method, proved against a function on its old state
(`LogCollector`, `LogDir`, `Db`, `ChannelTable`, `ChannelNumbers`, `Throttle`, `Scheduler`, and methods
like `Reader`, `CapRecord`, `Records`, `NumbersFor`, `GetLogFile`, `RehashStreams`). What is raced over by threads
or requests is a state machine whose step is one locked region, one file operation or one access to
a shared cache; its properties hold of every run (`CollectorRuns`, `SettingsCache`, `SingleFlight`).
The machine of `CollectorRuns` steps by the very functions the methods of `LogCollector` and `LogDir`
are proved to carry out.

| module | of |
|---|---|
| `ByteStrings` | bytes, and a few facts on sequences |
| `RecordCap`, `Framing`, `Collector`, `CollectorRuns`, `Rotation` | dispatcharr/log_collector.py |
| `LogTail` | core/log_files.py |
| `LogRecords` | core/log_center.py |
| `Rehash`, `RehashState`, `RehashTurns`, `RehashRuns`, `RehashPromise` | core/tasks.py |
| `CompactNumbering`, `ChannelRuns` | apps/channels/compact_numbering.py, the hide and unhide steps of apps/channels/api_views.py |
| `Reorder` | apps/channels/api_views.py |
| `GuideLayout` | apps/channels/guide_layout.py |
| `SettingsCache` | core/models.py, core/signals.py |
| `SingleFlight` | apps/api/schema_views.py |
| `LoginThrottle` | apps/accounts/throttling.py |
| `Schedules` | core/scheduling.py |

## Where the code differs from what it says

The model follows the code; each of these has a lemma.

- **Moving a channel to the beginning** (apps/channels/api_views.py:2400, "channel_number = 1"): a channel
  numbered 0 or below ends at 0 (`LandsAtTheFrontIff`). The docstring's "maintain contiguous ordering"
  holds exactly when no number was missing on the way (`SameNumbersIffNoGap`).
- **`_tail_open`** (dispatcharr/log_collector.py:614, 676-679): it is set exactly when the file ends inside
  a line and the last write attempt got a byte out (`FlagMeans`), so it is wrong after an attempt that fails
  before its first byte (`TheFlagCanBeWrong`) and in a collector that starts on a file ending inside a line
  (`FlagRightFromStartIff`).
- **Rehash** (core/tasks.py:526-528, "each record exactly once"): a row that is stored under its class's new
  hash already, and that the branch at 600-620 meets before its turn, is merged with itself when its turn
  comes if it is the best of its class so far; the class up to it is lost with its links (`ClassLostIff`).
  `PromisedIff` says for which tables the result is still the promised one, `ForwardClashLosesTheClass` gives
  a table for which it is not. If it is not the best so far it is gone when its turn comes, and the count
  reported at the end (core/tasks.py:662) is short by one for each such row (`RehashStreams`).
- **The settings cache** (core/models.py:431-440, "cannot re-poison"): true of a backend that flaps; but a
  fill that reads the version just before a save's bump, and stores just after its delete, still leaves
  the old value cached (`StaleOnlyThroughTheWindow` says it is the only way, `TheWindowIsOpen` that it is one).
- **One record per line** (dispatcharr/log_collector.py:332-341): needs the first chunk of an overlong line
  to stay above the record cap once normalised (`OneRecordEachIff`); `_normalize` only swaps a stamp for
  a stamp, so it does.
- **Archive 0** (dispatcharr/log_collector.py:712-722): a file `dispatcharr.log.0` counts as an archive and is
  overwritten by the rotation that moves it to 1 (`ArchiveZeroIsOverwritten`).
- **Pinned channels** (apps/channels/compact_numbering.py:10, "untouched"): a repack clears their own number
  (`RepackPacks`).

## Model

| member | source | states |
|---|---|---|
| RecordCap.CapRecord | dispatcharr/log_collector.py:143-152 | the loop back from the cap stops at the last index where a character can start |
| RecordCap.CapNeverCutsACharacter | dispatcharr/log_collector.py:143-152 | of UTF-8 text (RFC 3629), an oversize record is cut to the longest well-formed prefix within the cap, at most three bytes short of it, and with its marker is itself well-formed UTF-8 |
| RecordCap.SplitAtBoundary | dispatcharr/log_collector.py:146-151 | cutting UTF-8 text at a byte that is no continuation byte leaves two well-formed halves |
| RecordCap.OnlyAtBoundary | dispatcharr/log_collector.py:146-151 | and a prefix is well formed only when cut there |
| RecordCap.CappedShape | dispatcharr/log_collector.py:143-152 | whatever its bytes, a capped record is the line up to the cap, less only the continuation bytes just before it, and the marker, which ends its line |
| Framing.Reader | dispatcharr/log_collector.py:318-357 | for every input, whatever the length of its lines: the stream forwarded is each line's first chunk normalised and its further chunks unchanged, and the records filed are, in order, each line's normalised first chunk, capped if oversize, and otherwise each further chunk as well, of those met with persist on |
| Framing.OneRecordEachIff | dispatcharr/log_collector.py:332-341 | with persist on, every physical line is filed as exactly one record, exactly when no overlong line normalises to the cap or under |
| Framing.LinesJoin | dispatcharr/log_collector.py:322 | the physical lines are the whole input: no byte falls between two of them |
| Framing.LinesShape | dispatcharr/log_collector.py:322-325 | each physical line ends at its first newline, and only the last may lack one |
| Framing.FiledAt | dispatcharr/log_collector.py:327-352 | with persist on, line number k makes record number k: what its first chunk is normalised to, cut to the cap if that is longer |
| Framing.FiledIsForwarded | dispatcharr/log_collector.py:336-352 | with persist on and nothing over the cap, the file gets byte for byte what is forwarded |
| Framing.FiledAsRead | dispatcharr/log_collector.py:318-352 | where normalising changes nothing the input is forwarded as it is, however long its lines, and filed line by line where none is over the cap |
| Framing.OffMeansLeftOut | dispatcharr/log_collector.py:342-344 | a piece read while persist is off, and only such a piece, is left out of the file |
| Framing.FiledShape | dispatcharr/log_collector.py:334-341 | every record filed fits the cap and the marker, and an oversize one ends its line |
| Rotation.LogDir.ShiftArchives | dispatcharr/log_collector.py:690-695 | the rename loop, stopped by an error anywhere, has moved exactly the archives from some index up |
| Rotation.LogDir.MaybeRotate | dispatcharr/log_collector.py:681-700 | a rotation happens only above the size the settings give, and leaves the shifted archives, with the live file in place or as archive 1 |
| Rotation.LogDir.Prune | dispatcharr/log_collector.py:702-710 | removes no archive below `keep` and, unless an operation fails, all others |
| Rotation.Clamped | dispatcharr/log_collector.py:272-278 | a setting read from the conf file is itself if it is between its bounds, else the nearer bound, the default if it is no number |
| Rotation.LimitsAre | dispatcharr/log_collector.py:272-278 | the size limit is 1 to 20 MiB, 5 by default, and the files kept are 2 to 50, 5 by default |
| Rotation.RotationKeeps | dispatcharr/log_collector.py:690-700 | wherever a rotation stops, of archives 1 and up only those from `keep - 1` up can be gone; each other one is where it was or one place up, and the live file is live or archive 1 |
| Rotation.FullRotation | dispatcharr/log_collector.py:690-700 | a full rotation leaves an empty live file, the old one as archive 1, each archive one place up, and at most `keep` files |
| Rotation.ArchiveZeroIsOverwritten | dispatcharr/log_collector.py:696-722 | a full rotation loses no file below `keep - 1` if and only if there is no archive 0 |
| Collector.LogCollector.Accept | dispatcharr/log_collector.py:345-354 | the reader's locked region drops the oldest entries until the line fits, counting each, then appends it |
| Collector.LogCollector.TakeBatch | dispatcharr/log_collector.py:606-613 | the batch is the shortest front of the buffer that reaches the batch size, or all of it, and the drop count with it |
| Collector.LogCollector.Requeue | dispatcharr/log_collector.py:637-653 | all entries not wholly written go back in front, a marker among them as a count |
| Collector.LogCollector.WriteBatch | dispatcharr/log_collector.py:655-679 | whatever each write takes, the file gains exactly the first `written` bytes of the batch |
| Collector.WholeCountIsTheMost | dispatcharr/log_collector.py:641-647 | the entries a failed write counts as written are as many as fit in the bytes written, no more and no fewer |
| CollectorRuns.EveryRunConserves | dispatcharr/log_collector.py:604-653 | in every interleaving of reader and writer, with any failure and whatever was in the file: lines filed whole, then those in flight, then those buffered are accepted lines in order; the number missing is the drop count, the count in flight and the counts of whole markers in the file; the byte count is the buffer's; the files hold what was there and what was written, and each file rotated out ends in a newline; and the accepted lines are all that came |
| CollectorRuns.CaughtUp | dispatcharr/log_collector.py:604-635 | once the writer has caught up, every accepted line is in the file or in the count of a marker there, and with no marker the file has them all |
| CollectorRuns.WriteMovesLines | dispatcharr/log_collector.py:630-653 | a write attempt, wherever it breaks off, moves lines from the batch to the file and neither loses nor repeats one |
| CollectorRuns.SegmentsAreTheBytes | dispatcharr/log_collector.py:655-679 | the entries a write attempt completes, and the one it tears, are exactly the bytes it wrote |
| CollectorRuns.SegmentsOfBatch | dispatcharr/log_collector.py:637-653 | the lines it completes and those that come back are the batch; its marker is in the file whole or in the counter again, never both |
| CollectorRuns.TailFlagIsRightIff | dispatcharr/log_collector.py:675-679 | after a write attempt `_tail_open` says whether the file ends mid-line if and only if a byte was written or the file ended a line before |
| CollectorRuns.FlagMeans | dispatcharr/log_collector.py:675-679 | in every run from any file, `_tail_open` is set if and only if the file ends inside a line and the last write attempt got a byte out; it is right if and only if the file ends no line halfway or that attempt did |
| CollectorRuns.FlagRightFromStartIff | dispatcharr/log_collector.py:660-679 | while no attempt breaks off before its first byte the flag is right at every moment if and only if the collector started on a file that is empty or ends a line |
| CollectorRuns.NothingSplicesALine | dispatcharr/log_collector.py:614-635 | and from such a start neither a marker nor a rotation comes in the middle of a line, nor is either put off except there: past the size limit a file that ends a line is rotated out whole |
| CollectorRuns.TheFlagCanBeWrong | dispatcharr/log_collector.py:676-679 | a run of two failed attempts that ends with the flag unset and the file ending inside a line |
| CollectorRuns.AcceptDropsTheLeast | dispatcharr/log_collector.py:345-351 | at any moment a line accepted drops the oldest lines buffered and only as many as it must: with one fewer gone it would not have fitted |
| CollectorRuns.TakesAFullBatch | dispatcharr/log_collector.py:606-613 | a drain takes the oldest lines, the fewest that reach the batch size, or all of them |
| CollectorRuns.AcceptWithin | dispatcharr/log_collector.py:345-352 | whatever was buffered, after a line is accepted no more than the buffer size is |
| CollectorRuns.EveryRunFitsInMemory | dispatcharr/log_collector.py:599-653 | in every run the bytes buffered and those of the batch the writer holds, its marker included, stay below buffer, batch, one capped record, the start line and one marker |
| LogTail.CursorRoundTrip | core/log_files.py:126-131 | a cursor names its offset in the file with its inode, and nothing in any other |
| LogTail.OffsetInIff | core/log_files.py:125-131 | whatever is sent as a cursor, it names an offset exactly if it is this file's inode, a dash, and fewer than 20 digits, which are the offset |
| LogTail.GetLogFile | core/log_files.py:121-159 | a request serves whole lines from the offset its cursor names, or from the start, or from the first line within the cap; the response's cursor is where it ended; `reset` and `truncated` say which |
| LogTail.PollServes | core/log_files.py:125-150 | a response within the cap is everything from where it resumed to the last newline, and its cursor is a record boundary |
| LogTail.CursorResumes | core/log_files.py:30-35 | the next request takes that cursor up at that very offset, however the file has grown |
| LogTail.FollowingServesEverything | core/log_files.py:121-159 | over any number of polls of a growing file, none over the cap, the responses joined are its bytes from the first start to the last newline seen, none skipped, none repeated |
| LogTail.SessionServesTheFile | core/log_files.py:125-159 | a session begun without a usable cursor serves the whole file up to its last newline |
| LogTail.CappedServes | core/log_files.py:136-153 | a capped response starts at the first record boundary from the cap on, ends at the last newline, and leaves out nothing between; it is empty only where there is no whole line |
| LogTail.PastTheSize | core/log_files.py:140-142 | from a cursor past the size the file had when opened, everything to the last newline there is by then |
| LogTail.RotationResets | core/log_files.py:126-134 | after a rotation the old cursor is refused and the new file is served from its beginning |
| LogRecords.Records | core/log_center.py:308-361 | the records found are those of the partition of the non-blank lines in which each group goes on as long as its lines belong to the record so far |
| LogRecords.PartitionUnique | core/log_center.py:308-361 | there is only one such partition, so each line is in exactly one record and the lines settle which |
| LogRecords.NonBlankIs | core/log_center.py:319-321 | the lines folded are those not blank, each once, in order |
| LogRecords.GoesOnIff | core/log_center.py:326-340 | in what is found, a line is in the record of the line before it exactly if they are of one service and it continues it: the start of a traceback a record of level ERROR or CRITICAL, any line that reads as a continuation any record |
| LogRecords.RecordSays | core/log_center.py:322-360 | what each record found has for time, service, level, logger and text, by what its first line is |
| LogRecords.RecordHoldsItsLines | core/log_center.py:327-340 | a record's text is the payloads of all its lines in order, and its other fields are its first line's |
| LogRecords.OneServiceEach | core/log_center.py:326-340 | every line of a record found is of that record's service |
| LogRecords.TracebacksSurviveTheErrorFilter | core/log_center.py:327-336 | every non-blank line that starts a traceback has its place in a record found of level ERROR or CRITICAL, which asking for errors keeps |
| LogRecords.KeepsLevelIff | core/log_center.py:401-407 | a level asked for keeps the records of that level and above; a record without one is kept only when all are |
| Rehash.Db.GetBestChannelOrder | core/tasks.py:714-721 | the least order of the stream's links, none when there are none |
| Rehash.Db.DetermineStreamToKeep | core/tasks.py:724-762 | better order first and none last, then the newer row, then the lower id |
| Rehash.BetterOrderStays | core/tasks.py:737-751 | of two rows, one with a lower order in some channel than any the other has stays |
| Rehash.NewerStays | core/tasks.py:753-762 | on equal orders the one updated later stays, and if neither is, the one with the lower id |
| Rehash.Db.MergeStreamRelationships | core/tasks.py:688-711 | the loop over the links leaves the merged link table |
| Rehash.MergedLinks | core/tasks.py:688-711 | after a merge the source has no link, the target has each channel either had, once, at the better order, and no other link changed |
| Rehash.Db.RehashRow | core/tasks.py:543-627 | one row of the loop, in each of its branches, for a row that may be gone since its batch was fetched; saving onto a missing row raises |
| RehashState.BestOrderKept | core/tasks.py:714-721 | links gained by merging never change how the row left of a class compares with the rest, so the order of merges does not matter |
| RehashState.BestIs | core/tasks.py:724-762 | the best row of a class is the one that has the lowest channel order, of those the latest update, of those the lowest id |
| RehashState.JoinedOrder | core/tasks.py:701-711 | the least order over a class and one row more is the better of the two orders merged |
| RehashState.JoiningRow | core/tasks.py:581-598 | a row whose class has one left: the one the starting tables prefer stays, with the links of the class |
| RehashState.ClashingRow | core/tasks.py:600-620 | the first row of its class that meets one still to come under the class's hash: the same, for both of them |
| RehashState.LostRow | core/tasks.py:581-598 | the row left of a class, come to its turn: nothing of the class is left |
| RehashState.StaleRow | core/tasks.py:581-598 | a row already merged away, come to its turn: nothing changes but the counts |
| RehashRuns.FetchBatch | core/tasks.py:532-537 | the rows after the last one seen, in id order, at most a batch of them and none passed over |
| RehashTurns.TurnKeeps | core/tasks.py:543-627 | whatever row has its turn, nothing is raised, and each class has one row left: the best, with the class's links, of those that had their turn or were met ahead of it, less those lost |
| RehashRuns.RehashBatch | core/tasks.py:531-627 | a batch keeps that, rows gone before it was fetched having no turn |
| RehashTurns.ClassLostIff | core/tasks.py:600-620 | when a row met ahead of its turn has had it, its class has no row if and only if it is the best of its class up to its own id |
| RehashRuns.RehashStreams | core/tasks.py:491-662 | each class of equal new hashes ends with one row, the best of the rows not lost by channel order, then update time, then id; every channel of theirs is linked to it once at the least order it had, there are no other links, and the reported final count is short by the rows met ahead and gone at their turn |
| RehashRuns.RowLeftIff | core/tasks.py:724-762 | a row is left exactly if it is, of the rows of its class not lost, the first by channel order, then by latest update, then by lowest id |
| RehashPromise.PromisedIff | core/tasks.py:526-528 | that is the best row of every class with all its links if and only if each class that loses rows has its best row, and a link as good for each one lost, among the others |
| RehashPromise.PromisedWithoutJumps | core/tasks.py:600-626 | in particular where no row is stored under an earlier row's new hash, and then the counts are right |
| RehashPromise.BestThereIs | core/tasks.py:724-762 | every class has a best row, so that one row is left of each |
| RehashPromise.SelfMergeLosesTheRow | core/tasks.py:559-598 | a turn leaves a class without a row if and only if the class's key pointed at the row visited, and then its links are gone too |
| RehashPromise.ForwardClashLosesBoth | core/tasks.py:600-620 | a row that meets a later one of its class under the new hash: after the turn of that one the class has a row if and only if the first was preferred |
| RehashPromise.ForwardClashLosesTheClass | core/tasks.py:600-620 | two rows and one link are enough to lose a class |
| RehashPromise.OtherClassClashLosesARow | core/tasks.py:600-620 | and so they are where the second row is of another class |
| CompactNumbering.NextAvailableNumber | apps/m3u/tasks.py:1913-1930 | the search finds what the specification says |
| CompactNumbering.Next | apps/m3u/tasks.py:1913-1930 | the least free integer of the range, none only when there is none |
| CompactNumbering.ChannelTable.Pack | apps/channels/compact_numbering.py:385-402 | numbering channels in turn gives them the packed sequence and counts those that got a number |
| CompactNumbering.ChannelTable.RepackGroup | apps/channels/compact_numbering.py:295-429 | the table after a repack; assigned is the number of visible channels that have a number then, assigned and failed together all of them, released the hidden ones that had a number |
| CompactNumbering.ChannelTable.GatherPairs | apps/channels/compact_numbering.py:140-159 | the channels that may be numbered, by account and group |
| CompactNumbering.ChannelTable.GatherRelations | apps/channels/compact_numbering.py:164-201 | those pairs resolved: the account's own relation for the group, else the last one overriding into it |
| CompactNumbering.ChannelTable.AssignCompactNumbers | apps/channels/compact_numbering.py:128-272 | the channels of each relation numbered in turn, account by account, those of an account under refresh left alone |
| CompactNumbering.ChannelTable.EditBulk | apps/channels/api_views.py:1327-1364 | a bulk edit's flags, then the numbers of the channels shown, then the release of those hidden in compact groups |
| CompactNumbering.RangeOf | apps/channels/compact_numbering.py:303-308 | the range packed into is that of the relation's own start and end, a missing or zero start being 1 and a missing or zero end none |
| CompactNumbering.ResolutionIs | apps/channels/compact_numbering.py:164-194 | channels are numbered by the account's relation for their very group if there is one, else by the last one that overrides into it |
| CompactNumbering.HideAndShowAgree | apps/channels/compact_numbering.py:45-79 | a channel is released by the relation it is numbered by, where only one relation overrides into its group |
| CompactNumbering.ResolvedBelongs | apps/channels/compact_numbering.py:310-351 | a channel is only ever numbered by a relation whose repack would number it as well |
| CompactNumbering.WorkIsWork | apps/channels/compact_numbering.py:152-210 | every channel gathered is numbered by the compact relation it resolves to, in one piece of work only |
| CompactNumbering.EveryoneIsGathered | apps/channels/compact_numbering.py:196-201 | and every channel with such a relation is, unless one of another account and group resolves to the same one |
| CompactNumbering.PackedIsFirstFree | apps/channels/compact_numbering.py:385-397 | packing gives the first free integers in ascending order, none passed over, and gives none only when all are taken |
| CompactNumbering.FirstFreeUnique | apps/channels/compact_numbering.py:7-12 | there is only one such sequence |
| ChannelRuns.RepackPacks | apps/channels/compact_numbering.py:341-423 | the channels shown and without an override number have, in sort order, the first integers of the relation's range that are no override's and no other channel's, none passed over; hidden and pinned ones have none; nothing else changed |
| ChannelRuns.FailedOnlyWhenFull | apps/channels/compact_numbering.py:283-286 | a visible channel goes without a number only when every integer of the relation's range is some override's or some channel's |
| ChannelRuns.RepackIdempotent | apps/channels/compact_numbering.py:328-340 | a second repack changes nothing |
| ChannelRuns.RepackKeepsDistinct | apps/channels/compact_numbering.py:372-423 | a repack keeps channel numbers pairwise distinct |
| ChannelRuns.AssignedKeeps | apps/channels/compact_numbering.py:203-272 | an assignment changes only numbers, only of its channels, only to integers of the range of the relation they resolve to that no override has, and keeps numbers distinct |
| ChannelRuns.AssignedPacks | apps/channels/compact_numbering.py:203-255 | the channels of each relation get, in turn, the first integers of its range that are open when its turn comes, and keep them |
| ChannelRuns.RefreshingIsLeftAlone | apps/channels/compact_numbering.py:212-225 | channels of an account under refresh are left as they are |
| ChannelRuns.EditDoes | apps/channels/api_views.py:1327-1364 | what a bulk edit does to each channel: hidden ones are released exactly if their relation is compact, no number a channel has is changed otherwise, and nothing but flag and number changes |
| ChannelRuns.ShownIsNumbered | apps/channels/api_views.py:1335-1342 | a channel shown, with a compact relation of its own whose account is free, has a number afterwards unless every integer of the range is taken, or was until this edit released it |
| ChannelRuns.NumbersStayDistinct | apps/channels/api_views.py:1335-1364 | over any run of bulk edits, repacks and changed overrides, numbers that start distinct stay distinct |
| ChannelRuns.WrittenNumbersArePlacedWell | apps/channels/compact_numbering.py:82-117 | any number such a step writes is an integer of the range of the channel's own relation, the one repacked or the one it resolves to, and no override's |
| GuideLayout.FirstNumber | apps/channels/guide_layout.py:36-43 | the least number there is without the moved channel, else its own, else 1 |
| GuideLayout.NumbersFor | apps/channels/guide_layout.py:27-57 | the numbers along the order, from that first number |
| GuideLayout.FilledAt | apps/channels/guide_layout.py:55 | without repeats in the order, each channel has the number of its place and no other channel has one |
| GuideLayout.TheFirstOne | apps/channels/guide_layout.py:36-50 | the first channel keeps its number; moved there, or without one, it takes the first number of the group, the least any other channel has |
| GuideLayout.MovedOnlyAsFarAsItHasTo | apps/channels/guide_layout.py:51-54 | any other channel keeps its number if it is above the one before, and takes the next one up if not |
| GuideLayout.PlacedInOrder | apps/channels/guide_layout.py:46-56 | the numbers are strictly ascending along the order |
| GuideLayout.NeverLowered | apps/channels/guide_layout.py:48-54 | a channel that keeps its number is never given a lower one |
| GuideLayout.LeastArrangement | apps/channels/guide_layout.py:31-34 | no arrangement on whole numbers with the same first number has any channel lower: each moves as little as possible |
| GuideLayout.PlacedIsAnArrangement | apps/channels/guide_layout.py:31-43 | from whole numbers, the first number being the one the code takes, it is such an arrangement itself |
| GuideLayout.StopsWhereThereIsRoom | apps/channels/guide_layout.py:51-54 | once a channel keeps its number and the rest is in order, nothing after it changes |
| GuideLayout.AgainIsTheSame | apps/channels/guide_layout.py:27-57 | asking again with nothing moved gives the numbers just applied |
| Reorder.ChannelNumbers.Reorder | apps/channels/api_views.py:2394-2444 | both directions of the move are one map on the numbers, and an unknown target, which is reported, or a move to the same place changes nothing |
| Reorder.MoveKeepsTheRest | apps/channels/api_views.py:2424-2440 | distinct numbers stay distinct, and every two other channels keep their order |
| Reorder.OnlyTheOnesBetween | apps/channels/api_views.py:2424-2438 | only the channels from where the channel was to where it lands change their numbers, each by one towards where it was |
| Reorder.AlreadyThereMeans | apps/channels/api_views.py:2414-2422 | a channel is said to be there already only if the move would change nothing |
| Reorder.UnnumberedTarget | apps/channels/api_views.py:2404-2407 | a target without a number sends the channel to the front |
| Reorder.LandsAfterItsTarget | apps/channels/api_views.py:2404-2407 | the moved channel comes out directly after its target, whichever way it moved |
| Reorder.LandsAtTheFrontIff | apps/channels/api_views.py:2399-2402 | a channel sent to the front comes out at 1 if and only if its number was 1 or above, at 0 otherwise |
| Reorder.SameNumbersIffNoGap | apps/channels/api_views.py:2389-2393 | the numbers in use are the same afterwards if and only if none was missing between where the channel was and where it lands |
| SettingsCache.NoStaleFillAfterABump | core/models.py:429-466 | in every run, a value cached or about to be was loaded after the bump of every save whose bump came before the fill's second look at the version, so is no older than it, and comes from a fill none of whose reads failed |
| SettingsCache.StaleOnlyThroughTheWindow | core/models.py:397-403 | a cached value older than a save that reached the cache comes from a fill that last read the version before the bump and stored after the delete |
| SettingsCache.FreshForever | core/models.py:459-465 | once nothing older than a bumped save is cached or about to be, nothing older ever is again |
| SettingsCache.StoredIffNoBump | core/models.py:455-465 | a fill that reads the version goes on to store what it loads if and only if no bump reached the cache up to its second look |
| SettingsCache.AFillFills | core/models.py:441-466 | a fill nothing comes between leaves the newest value cached and returns it, and the next read is served it from the cache |
| SettingsCache.TheWindowIsOpen | core/models.py:461-465 | a run that goes through that window |
| SettingsCache.ReadsAreFresh | core/models.py:441-466 | a read begun once both cache writes of a save have got through returns a value as new as that save, or one cached through its window |
| SingleFlight.OneBuilderPerKey | apps/api/schema_views.py:142-153 | at every moment of every run a key has at most one builder between registering and being popped |
| SingleFlight.WaitersAreReleased | apps/api/schema_views.py:155-189 | the event a request waits for has been set, or the request that will set it is still building for the same key |
| SingleFlight.WaitersGetTheSchema | apps/api/schema_views.py:161-179 | an answer without a schema means that the request's own build failed, or that the build it waited for did or its result was cleared after it was stored; any schema was built for the request's key |
| SingleFlight.BuildersGetTheirOwn | apps/api/schema_views.py:172-189 | a request that builds is answered with the very schema its build returned, and with an error exactly if it failed |
| SingleFlight.CachedIsServed | apps/api/schema_views.py:134-145 | a read that finds the key in the cache answers the request at once |
| SingleFlight.NothingOldAfterAClear | apps/api/schema_views.py:62-73 | a request that arrives after everything was cleared only gets a schema whose cache write was still to come when the results were cleared |
| SingleFlight.EachSchemaIsBuiltOnce | apps/api/schema_views.py:134-189 | while nothing fails, expires or is cleared, each key is built once however many requests race |
| SingleFlight.StepKeeps | apps/api/schema_views.py:62-73 | the invariant behind them survives every step, clearing included |
| LoginThrottle.Throttle.Recent | apps/accounts/throttling.py:39 | the failures of the last `duration` that the cache still knows |
| LoginThrottle.Throttle.AllowRequest | apps/accounts/throttling.py:33-42 | lets a login through while fewer than the limit count, and uses up nothing |
| LoginThrottle.Throttle.NoteFailedLogin | apps/accounts/throttling.py:60-71 | a failure is put in front of those that still count, and kept for the duration |
| LoginThrottle.NothingForgotten | apps/accounts/throttling.py:69-71 | neither the expiry of the entry nor the filtering forgets a failure that still counts |
| LoginThrottle.AskedAboutTheRealFailures | apps/accounts/throttling.py:39-42 | at any login of any run, it is let through if and only if fewer than the limit of the failures let through are less than `duration` old |
| LoginThrottle.AtMostLimitFailures | apps/accounts/throttling.py:28-32 | of any limit + 1 failures let through for an address, the first and the last are at least the duration apart |
| Schedules.Scheduler.GetOrCreate | core/scheduling.py:91-98 | the row with this schedule, made if there is none |
| Schedules.Scheduler.CreateOrUpdatePeriodicTask | core/scheduling.py:43-148 | a valid wish is carried out and the old schedule of its periodic task cleaned up; a cron line that has not five parts changes nothing |
| Schedules.Scheduler.DeletePeriodicTask | core/scheduling.py:151-179 | the periodic task goes and its schedule is cleaned up; an unknown name changes nothing |
| Schedules.CreateDoes | core/scheduling.py:69-143 | the named task is the one wished for, enabled exactly if that is wished and it has a cron line or at least an hour, on a row with that cron line or that many hours, one at least; no other task changes; its old row goes exactly when no task uses it, and no other does |
| Schedules.DeleteDoes | core/scheduling.py:151-179 | only the named task goes, and its row exactly when no other task uses it |
| Schedules.NoOrphansNoDanglers | core/scheduling.py:72-203 | after any calls each task has exactly one of interval and crontab, its row exists, and every row these calls made is some task's |
| Schedules.CreateThenDelete | core/scheduling.py:151-179 | creating a task and deleting it restores the tables if and only if no unused row with that schedule was lying about |

## Left out

- RehashRuns.RehashStreams: requires that no row is stored under the new hash of an earlier row of another class (and the unique constraint on stored hashes). Past such a clash two classes run together, and which rows and links come out depends on all later visits; `OtherClassClashLosesARow` gives a table that loses a class. Rows are not skipped by `skip_locked`, nobody else changes the tables, and saving a hash leaves `updated_at` alone.
- RehashRuns.FetchBatch: one batch is fetched and worked through without anybody else changing the tables.
- Framing.Reader: what `_normalize` makes of a first chunk is an arbitrary function of the line's number and bytes, and the persist setting one of the line's number and the chunk's.
- Framing.FiledShape: takes it from `_normalize` that a full chunk stays above the record cap.
- CollectorRuns.EveryRunFitsInMemory: the lines are capped ones (`Framing.FiledShape`), and the start line and a marker are no longer than one.
- LogTail.GetLogFile: the content is the bytes before they are decoded, cursors have ASCII digits, and the parts of a request before the file is open are left out.
- LogRecords.Records: the regular expressions are arbitrary recognisers; topics, plugins and text search are not modelled.
- CompactNumbering.ChannelTable.RepackGroup: the sort keys are not modelled; the order of the visible channels is a parameter.
- CompactNumbering.ChannelTable.AssignCompactNumbers: the order of the relations and of the channels, as the queries give them, is a parameter.
- Reorder.ChannelNumbers.Reorder: channel numbers are whole numbers.
- GuideLayout.LeastArrangement: compared with arrangements on whole numbers; between fractions there may be room for less than a step of 1.
- LoginThrottle.AtMostLimitFailures: one login after another, each failure noted once; with logins in parallel more can be let through before the first is noted.
- Schedules.NoOrphansNoDanglers: the interval and the crontab table are one map, no two rows have the same schedule to begin with, and calls do not race.
- SettingsCache.ReadsAreFresh: the cached User-Agent string (core/models.py:387-395, 529-561) is not modelled; it is resolved by such a read, so it can also be old by way of the window of the group it reads. The process-local proxy settings copy is left out. A fill is interrupted between any two accesses, so it is a machine on values, not a class.
- SingleFlight.StepKeeps: a request is interrupted between any two accesses, so it is a machine on values, not a class; a key is fixed when a request arrives.
- CollectorRuns.NothingSplicesALine: nothing is said of the file's lines where `FlagMeans` leaves the flag wrong.
- Marker text, stamps and time zones.
- Opening, stat-ing and closing the live file; signals; the pid file; the boot archive shift.
- Redis task locks as such: where compact numbering and rehash hold one, nobody else writes.
- Views that only forward, serializers, permissions, settings getters, networking, `renumbered`, `renamed`.
