# Verified model of zstats

zstats is a system monitor: it collects process, disk and memory figures on an interval, evaluates
alert rules over rolling windows, keeps a daily history, serves snapshots to attached clients, and
reads the socket tables of macOS and Linux out of raw kernel buffers. This project models the parts of
it that keep state or walk untrusted bytes, and proves what they promise over every input and every
run. `dafny verify dfyconfig.toml` checks all of it.

| file | models |
|---|---|
| `Bytes`, `Collections` | little-endian fields of byte strings, saturating sums; sequences as sets, insertion, and time order |
| `SockDiag`, `Diag`, `DumpProofs`, `DumpContents` | the Linux netlink dump: two nested walks, many receive buffers, the message header of section 2.3.2 of RFC 3549 |
| `Pcblist`, `PcblistProofs`, `PcblistLayout`, `PcblistRoundTrip` | the macOS socket table: what is accepted, what it means, the layout byte by byte, and a round trip |
| `ProcessTree`, `ProcessGroups`, `TopPids` | the memoised root of every process, the groups built on it, and the choice of detail rows |
| `Matching`, `ActiveThresholds` | override keys, their ranking, and the bars they give |
| `Rolling`, `Episodes`, `Pressure`, `Disks`, `Engine` | the alert engine: windows, episodes, pressure machine, disk hysteresis, evaluation |
| `EngineRuns`, `EngineHeard`, `EngineSilence`, `EngineRules` | the engine over whole runs: that alerts are true and none is missed, what is told about each key and when nothing is, and its pressure and disk rules |
| `EngineBars`, `EngineRecords` | what the engine compares with what, and every figure it tells and records, in terms of the settings and the samples alone |
| `Scheduler` | the `in_flight` flag and the collector's lock against collects that cannot be cancelled |
| `Attach` | the daemon's history buffer and a client attaching to it |
| `History` | the daily files and their retention sweep |
| `Config` | sizes and durations, printed and parsed |

Code that updates state in place is a class or a loop here, proved equal to a function of the old
state; the lemmas are about those functions. Where a function decides something on its own, such as
which parent link counts or what a bar is, a lemma says what it decides in terms of its inputs alone.
Times are nanoseconds on a clock that does not run backwards, except where a lemma says otherwise;
floating point is exact `real` arithmetic; names are byte strings; text of error messages is a
datatype of reasons.

## Where the code differs from what is said of it

* **A collect that panics with nobody waiting for it stops collection.** `src/scheduler.rs:31` says a
  failed collect is only logged and the loop goes on. The flag is cleared by the blocking task, or, if
  that panicked, by whoever waits for it (lines 176-189); when the wait has timed out or its call was
  dropped, nobody does: `Scheduler.TimeOutThenPanic` and `DropThenPanic`. `Scheduler.Stuck` is the exact
  condition, for any loops and any calls of `collect_once`: the flag is set, no collect is live or about
  to be spawned, and no one waits for a panicked one. From a reached state the flag can be cleared
  without another `collect_once` if and only if the state is not stuck (`FlagCanClearIffNotStuck`); a
  stuck state stays so and starts nothing (`StuckStays`); and a panicked collect that nobody waits for
  is the only cause (`StuckMeansAbandoned`). With the loop alone, being stuck is the same as having such
  a collect (`StuckIffAbandonedWithoutCalls`); a call of `collect_once` may still clear the flag of one.
* **The memo of process roots is the plain ancestor walk exactly when no chain of accepted links has
  more than 512 nodes** (`ProcessTree.AgreesIffShort`), and exactly then do the roots, and the groups
  built on them, not depend on the order in which the table lists its keys
  (`ProcessTree.IndependentIffShort`, `ProcessGroups.GroupsIndependentIffShort`).
  `ProcessTree.LadderIsLong` is a table of 513 processes.
* **`parse_duration` multiplies without a check** (`src/config.rs:42-46`), so it does not return what
  the text says exactly when digits that fit in 64 bits stand before a unit that takes them past it:
  `Config.ParseDuration` gives `Overflows` there and nowhere else (`Config.OverflowsIff`), and otherwise
  the exact number of milliseconds (`Config.DurationMeans`). Of hours, those from 5124095576031 on do
  (`Config.HoursOverflow`). Printed durations never do (`Config.DurationReadsBack`). `parse_size` checks
  the same product and refuses (`Config.SizeMeans`).
* **`format_duration` truncates** (`src/config.rs:58`): a duration survives printing and parsing exactly
  when it is a whole number of milliseconds below 2^64 (`Config.DurationRoundTrip`).

## Model

| member | source | states |
|---|---|---|
| Bytes.FieldsMean | src/listeners/sockdiag.rs:231-262 | 16-, 32- and 64-bit fields are read lowest byte first, and a 32-bit one with its highest bit set is negative where it is read as signed |
| SockDiag.TcpInfo | src/listeners/sockdiag.rs:211-229 | on any bytes the attribute loop ends in bounds with what the recursive walk finds: the first `INET_DIAG_INFO` payload, none, or an overrun |
| SockDiag.Parse | src/listeners/sockdiag.rs:128-180 | on any bytes the message loop ends in bounds with the result of the recursive walk: flows, end mark, torn mark, errno, or why it was refused |
| Diag.ReadDump | src/listeners/diag.rs:138-179 | the receive loop accumulates flows over buffers as its specification does, stopping at 4096 receives, an empty or missing reply, an errno or the end mark |
| Diag.KeyByInode | src/listeners/diag.rs:117-123 | of the flows of one walk, the last of each inode is kept |
| Diag.FlowTable.DumpFamily | src/listeners/diag.rs:108-136 | of up to three walks the first that was not torn decides: its error is returned, an absent family adds nothing, and its flows are added to the table; if all three were torn the flows of the third are; in every other way the table stays as it was |
| Diag.LastOfInode | src/listeners/diag.rs:62-63 | the flow kept of an inode is the last one there is |
| Diag.RefusalMeans | src/listeners/diag.rs:183-192 | errno 97 or 93 of either sign means IPv6 is not there; on IPv4, and for any other, the dump failed and the error says the errno without its sign |
| Diag.TcpFlows | src/listeners/diag.rs:64-74 | both families, sequence 1 and then 2, into one table by inode, an inode in both keeping its later copy; the first error is the result |
| Diag.ReceiveMeans | src/listeners/diag.rs:147-179 | an interrupted receive is not counted; a failed one, an empty one and a refused buffer are errors; no more to receive is a time-out; after 4096 buffers the dump did not finish |
| DumpProofs.WalkIsMeaning | src/listeners/sockdiag.rs:139-178 | on messages laid end to end with padding, the byte walk from any point is the fold of their effects |
| DumpProofs.BufferIsMeaning | src/listeners/sockdiag.rs:128-180 | one receive buffer of well-formed messages means what its messages mean, whatever the padding bytes are |
| DumpProofs.AcceptedIsMessages | src/listeners/sockdiag.rs:128-180 | on any bytes, acceptance means whole messages on a 4-byte grid, each in range and of the request's sequence, whose meaning is the result, up to an end or to less than a header |
| DumpProofs.MeaningAfter | src/listeners/sockdiag.rs:173 | flows collected before only go in front; nothing else of the result depends on them |
| DumpProofs.MeaningSplit | src/listeners/sockdiag.rs:139-178 | the meaning of a list of messages is that of any front part followed by that of the rest |
| DumpProofs.ReceiveIsOutcome | src/listeners/diag.rs:147-179 | from any point of the receive loop, the result of what is still to come is a function of the messages alone, not of the buffers, unless the cap of 4096 receives comes before the one that ends the dump or finds nothing; then the dump did not finish |
| DumpProofs.FewFitTheCap | src/listeners/diag.rs:149-173 | the cap cuts off no dump of fewer than 4096 buffers, and none of exactly 4096 whose messages settle it |
| DumpProofs.ChunkingInvariance | src/listeners/diag.rs:138-179 | one list of messages cut at message boundaries in two ways, with interrupted calls anywhere, gives one result, be it flows, torn mark, errno or refusal, if and only if the receive cap cuts off both or neither |
| DumpContents.FindsInfo | src/listeners/sockdiag.rs:211-229 | behind any other attributes, with any padding, the walk finds the payload of the first `INET_DIAG_INFO` |
| DumpContents.EntryEffect | src/listeners/sockdiag.rs:184-208 | a socket entry reports its inode and counters, sent bytes if the structure reaches them and acknowledged bytes if not; inode 0 and unknown kinds report nothing |
| DumpContents.EntriesMeaning | src/listeners/sockdiag.rs:139-178 | a list of entries reports, in order, exactly the sockets with a nonzero inode |
| DumpContents.DumpReports | src/listeners/diag.rs:138-179 | however it is cut into buffers that the receive cap does not cut off, a dump gives the reports of its entries up to `NLMSG_DONE` and is torn exactly when that message says so |
| DumpContents.MessageMeans | src/listeners/sockdiag.rs:158-208 | what any message of the request's sequence does, by its kind, its flags and its bytes: the end mark and whether it is torn, the errno, the socket with its inode and counters or why it is refused, and nothing for any other kind |
| DumpContents.WalkMeans | src/listeners/sockdiag.rs:128-180 | which message the walk takes next, when it stops, and which length or sequence number refuses the buffer, with what defect |
| DumpContents.AttributeMeans | src/listeners/sockdiag.rs:211-229 | one attribute of the walk: an impossible length refuses the message, type 2 is the payload sought, its flag bits aside, and any other is stepped over to the next multiple of four |
| Pcblist.TrafficBytes | src/listeners/pcblist.rs:201-212 | both byte sums over the four traffic classes, capped at the largest 64-bit value, or a short record |
| Pcblist.Tally.TakeRun | src/listeners/pcblist.rs:167-195 | the new state after one socket; one that is refused has been counted and has changed nothing else |
| Pcblist.Parse | src/listeners/pcblist.rs:215-287 | on any bytes the loop ends in bounds with the result of the recursive walk |
| PcblistProofs.WalkIsFold | src/listeners/pcblist.rs:230-286 | on records on an 8-byte grid and a closing header, the byte walk is the fold over the records |
| PcblistProofs.AcceptedIsFramed | src/listeners/pcblist.rs:230-286 | an accepted walk means the bytes are whole records on an 8-byte grid up to the first 24-byte record |
| PcblistProofs.SplitShape | src/listeners/pcblist.rs:257-264 | the known records are what precedes the first socket and then one group per `xinpcb_n`, in order |
| PcblistProofs.FoldIsReading | src/listeners/pcblist.rs:252-284 | inside a socket, the walk is accepted exactly when every known record has its length and the groups read one by one, and then with that reading |
| PcblistProofs.FoldFromStart | src/listeners/pcblist.rs:227-286 | the same from the start of a table, where a known record before the first socket refuses it |
| PcblistProofs.AcceptedIff | src/listeners/pcblist.rs:215-287 | a table is accepted with value v if and only if it is an opening header, framed records and a closing header that say v |
| PcblistProofs.ReadingIsComplete | src/listeners/pcblist.rs:167-195 | in an accepted table every group counts as a socket and carries an `xsocket_n`, an `xsockstat_n` if attached, an `xtcpcb_n` if a bound TCP socket, and none of these twice |
| PcblistProofs.AcceptedIsComplete | src/listeners/pcblist.rs:167-287 | so of any accepted bytes: the sockets counted are the groups of the table, and each of them carries its records |
| PcblistLayout.KindsMean | src/listeners/pcblist.rs:112-124 | the six known kinds and the one length each must have |
| PcblistLayout.FramedMeans | src/listeners/pcblist.rs:230-246 | a record is at least eight bytes, not 24, and takes up its length rounded up to a multiple of eight |
| PcblistLayout.TrafficMeans | src/listeners/pcblist.rs:201-212 | the counters are the exact sums over four classes, at 16, 48, 80 and 112 and at 32, 64, 96 and 128, stopping at the largest 64-bit value |
| PcblistLayout.AddressMeans | src/listeners/pcblist.rs:354-373 | any flags with the IPv6 bit give all 16 bytes, else with the IPv4 bit the last four, and with neither refuse the table |
| PcblistLayout.AttachedMeans | src/listeners/pcblist.rs:293-316 | a blank `xsocket_n` is no socket; any other whose protocol is not the table's, zero included, refuses it |
| PcblistLayout.ListenerMeans | src/listeners/pcblist.rs:317-352 | of any attached socket: its owner, when it is listening, by state or by its foreign end, and every field of its listener |
| PcblistLayout.HeadersRefused | src/listeners/pcblist.rs:215-250 | a table that is too short for its opening header, or opens with another length than 24, is refused for that |
| PcblistLayout.RecordsRefused | src/listeners/pcblist.rs:230-284 | and so is one without a closing header, or with a record past the end, shorter than eight bytes, of another length than its kind has, or before any socket |
| PcblistRoundTrip.ClassesBack | src/listeners/pcblist.rs:201-212 | counters written class by class sum back to what was written |
| PcblistRoundTrip.TakesSock | src/listeners/pcblist.rs:293-352 | the records written for a socket classify back to its owner, address, port and listening state |
| PcblistRoundTrip.UnknownInvisible | src/listeners/pcblist.rs:282-283 | records of unknown kinds never change what the known ones say |
| PcblistRoundTrip.RoundTrip | src/listeners/pcblist.rs:470-528 | any sockets, written as the test encoder does and interleaved with unknown records of any length but 24, parse back to exactly their count, listeners, owners and flows, in order |
| PcblistRoundTrip.PlainRoundTrip | src/listeners/pcblist.rs:521-528 | the same for the encoder's own table |
| PcblistRoundTrip.ShowsOnlyMeans | src/listeners/pcblist.rs:157-165 | of a written table, the check for a restricted view holds if and only if sockets are missing and every owned one that is there is the caller's |
| ProcessTree.ResolveRoots | src/collector/local.rs:1415-1444 | the memo loop, for any table and order, computes its specification |
| ProcessTree.Insert | src/collector/local.rs:1441-1443 | every pid of the climbed path gets the root |
| ProcessTree.RootsSound | src/collector/local.rs:1415-1444 | for any table at all, every pid asked for gets a root, which is in the table, is its own root, and is reached by accepted links |
| ProcessTree.HeadsAreRoots | src/collector/local.rs:1400-1444 | for any table and order, a process with no parent, or whose parent is init, itself, missing, a service manager or known to have started later, is its own root |
| ProcessTree.OthersFollowTheirParent | src/collector/local.rs:1400-1444 | with no chain of more than 512, every other process has the root of its parent, and is not one itself |
| ProcessTree.ShortMeansNoLongChain | src/collector/local.rs:1433 | and that condition is that the table holds no chain of 513 processes, each the accepted parent of the one before |
| ProcessTree.RootsStay | src/collector/local.rs:1422-1425 | an answer once memoised is never changed |
| ProcessTree.NoMemberBeforeItsRoot | src/collector/local.rs:1400-1408 | with every start time known, no member started before its root |
| ProcessTree.ShortAgrees | src/collector/local.rs:1415-1444 | when no chain has more than 512 nodes, each pid gets the plain walk's root, whatever the order |
| ProcessTree.LongDisagrees | src/collector/local.rs:1433 | a longer chain is resolved wrongly in some order |
| ProcessTree.AgreesIffShort | src/collector/local.rs:1415-1444 | the memo agrees with the plain walk in every order if and only if no chain has more than 512 nodes |
| ProcessTree.IndependentIffShort | src/collector/local.rs:1415-1444 | the roots are the same for every two orders of the table's keys if and only if no chain has more than 512 nodes |
| ProcessTree.LadderIsLong | src/collector/local.rs:1433 | a concrete table of 513 processes where it does not |
| ProcessGroups.SumGroups | src/collector/local.rs:1446-1472 | one entry per root, each the summary of its own members |
| ProcessGroups.SummaryAdds | src/collector/local.rs:1459-1471 | adding a member's node to a group's totals gives the summary of the larger set, capped sums included, so the order of adding does not matter |
| ProcessGroups.FiguresAdd | src/collector/local.rs:1446-1472 | what each figure of a group is, member by member: counts, CPU, resident memory, footprints or else resident memory, and disk traffic where known, sums stopping at the largest 64-bit value |
| ProcessGroups.GroupsPartition | src/collector/local.rs:1446-1472 | the sizes of the groups sum to the number of pids |
| ProcessGroups.CountsCoverTable | src/collector/local.rs:1446-1480 | for any table and order, the counts of the ranked groups, before any is cut, sum to the table's size |
| ProcessGroups.RankAll | src/collector/local.rs:1474-1480 | every group once, by CPU, then memory, then pid |
| ProcessGroups.Aggregate | src/collector/local.rs:1415-1483 | the whole aggregation gives the ranking of the groups, cut to `max` |
| ProcessGroups.RankingMeans | src/collector/local.rs:1415-1483 | a ranking has one entry per root, each the summary of its members, in falling CPU, then falling memory, then rising pid; so what is kept comes before what is cut |
| ProcessGroups.RankingUnique | src/collector/local.rs:1474-1480 | there is only one ranking of given totals |
| ProcessGroups.GroupsIndependentOfOrder | src/collector/local.rs:1415-1483 | with no chain too long, the groups reported do not depend on the order of the table |
| ProcessGroups.GroupsIndependentIffShort | src/collector/local.rs:1415-1483 | the groups reported are the same for every two orders, whatever `max`, if and only if no chain has more than 512 nodes |
| TopPids.SelectTopPids | src/collector/local.rs:1276-1286 | the sorts, split and cut give the pids of the selection |
| TopPids.SelectMeans | src/collector/local.rs:1271-1286 | everyone if there is room; else exactly those in the CPU half of the budget and the best of the rest by memory, as many as the budget allows, in falling CPU, then falling memory, then rising pid |
| TopPids.AheadMeans | src/collector/local.rs:1271-1286 | who is ahead of whom by CPU and by memory |
| TopPids.NeitherHalfIsPushedOut | src/collector/local.rs:1271-1275 | the biggest memory users are selected however busy the machine, and so are the biggest CPU users |
| Matching.ParsesIffNoInteriorStar | src/alerts.rs:784-805 | a key is readable if and only if no `*` stands inside it |
| Matching.MatchesIsGlob | src/alerts.rs:815-834 | a readable key matches a name if and only if a general glob does, letters compared without case |
| Matching.OverrideClaims | src/alerts.rs:883-904 | an entry claims the names its key globs, or, if the key is not readable, the names that spell it, and keeps its layer and value |
| Matching.KeysMean | src/alerts.rs:784-805 | a `*` at the start, the end, both or neither makes a suffix, a prefix, an inner part or a whole name |
| Matching.FoldMeans | src/alerts.rs:815-834 | two bytes match if and only if they are the same or the two cases of one letter of the alphabet |
| Matching.SpellingMeans | src/alerts.rs:815-834 | names that differ in the case of letters only are claimed by the same entries |
| Matching.Best | src/alerts.rs:928-938 | the first of the highest-ranked matching entries, or none if none matches |
| Matching.FindOverride | src/alerts.rs:928-938 | the loop returns the value of that entry, and nothing exactly when none matches |
| Matching.BestUnique | src/alerts.rs:856-862 | the best entry is determined by the ranking alone |
| Matching.BestMeans | src/alerts.rs:846-863 | the best entry is the one that comes first by user before template, exact before pattern, longer before shorter, and position |
| Matching.UsersDecide | src/alerts.rs:846-863 | if a user entry matches, the best entry is the best user entry |
| Matching.TemplatesNeverOutrankUsers | src/alerts.rs:846-863 | two lists with the same user entries, one of which matches, give the same override, whatever their template entries |
| Matching.ReorderingChangesNothing | src/alerts.rs:856-862 | with distinct matching ranks, the order of entries is irrelevant |
| ActiveThresholds.AsU64 | src/alerts.rs:637-644 | the conversion saturates at both ends and rounds down between |
| ActiveThresholds.OverrideReplacesBoth | src/alerts.rs:971-984 | with the same overrides, no change of share or ceiling moves the bar of a name that one of them matches |
| ActiveThresholds.BaseIsLower | src/alerts.rs:986-1000 | without an override, holding at least the bar is holding at least the base fraction of all memory, in whole bytes, or at least the ceiling |
| ActiveThresholds.ThresholdMeans | src/alerts.rs:905-938 | the threshold in force is the value of the best entry that claims the name, which may switch the rule off, or else the base |
| ActiveThresholds.BarMeans | src/alerts.rs:637-644 | the bar is the best entry's fraction of all memory in whole bytes, stopping at 64 bits; none if that entry switches the rule off; and without an entry the base fraction or the ceiling, whichever is lower |
| Rolling.ProcessWindows.PushBack | src/rolling.rs:105-119 | the deque loop drops from the front exactly what is too old and is never left empty |
| Rolling.ProcessWindows.Record | src/rolling.rs:95-150 | the new windows, and statistics for exactly the pids of this snapshot |
| Rolling.PruneIsRecent | src/rolling.rs:113-119 | dropping from the front is filtering by age |
| Rolling.FullGrows | src/rolling.rs:95-119 | the history of a pid, list by list: nothing once a list lacks it, and for each list that has it one more sample of that time, CPU, memory, footprint and CPU-time counter |
| Rolling.SumsAdd | src/rolling.rs:120-148 | the sums behind the averages take in every sample once, and the footprints only those that carry one |
| Rolling.WindowsExact | src/rolling.rs:95-150 | after any run in time order each window is exactly the samples since the pid's last absence no older than the window, and there is one for exactly the current pids |
| Rolling.StatsExact | src/rolling.rs:120-148 | every statistic is that of the unpruned history filtered by age, over at least one sample |
| Rolling.SpanMeansPresence | src/rolling.rs:120-125 | a span of some length means the pid was in every list recorded over that long |
| Episodes.EpisodeState.Notify | src/alerts.rs:1701-1741 | the decision and the whole new state: a crossing, one follow-up, or silence |
| Episodes.EpisodeState.Clear | src/alerts.rs:1745-1747 | the episode ends, and nothing else changes |
| Episodes.EpisodeState.Retain | src/alerts.rs:1750-1753 | exactly the kept keys remain, in both maps |
| Episodes.PassesDoNotInterfere | src/alerts.rs:1438-1440 | the application pass never drops a process key, nor the process pass an application key, and each drops exactly its absent ones |
| Episodes.NotesFollow | src/alerts.rs:1690-1741 | per key: the first notification is a crossing, a follow-up comes once and at least half an hour after its crossing, a further crossing only after a clear and its cooldown after the last notification |
| Episodes.HoldingIsTold | src/alerts.rs:1691-1740 | while the condition holds it has been told since it last lapsed, or the last notification is within the cooldown |
| Episodes.FollowUpComes | src/alerts.rs:1707-1716 | a condition that has held for half an hour since it was told is followed up |
| Episodes.NotificationsBounded | src/alerts.rs:1690-1741 | in any span a key notifies at most twice per cooldown, and twice more |
| Episodes.KeysIndependent | src/alerts.rs:1682-1753 | the maps of many keys are one such machine per key, each restarted when its pass drops it |
| Pressure.PressureRule.ClearPressure | src/alerts.rs:1239-1246 | the episode's fields are as they were at the start |
| Pressure.PressureRule.Evaluate | src/alerts.rs:1329-1393 | the alert and all six fields after one evaluation |
| PressureRuns.BackoffGrows | src/alerts.rs:1362-1369 | each reminder adds its gap to the backoff, and the gap is four hours from the third on |
| PressureRuns.RunReflects | src/alerts.rs:1329-1393 | over every run, thresholds changing at will, the fields say what has been told, and every alert is measured against all before it |
| PressureRuns.NoticesMeetThreshold | src/alerts.rs:1322-1356 | every notice is of an evaluation at its time, of the level seen there, and at or above the threshold then in force |
| PressureRuns.ToldExactly | src/alerts.rs:1329-1393 | an evaluation tells if and only if the level is above normal and at the threshold, and is worse than anything told this episode and has been above normal for five minutes, or one if critical, or the wait for the next reminder is over; and it says for how long |
| PressureRuns.EpisodesEndWithSpells | src/alerts.rs:1329-1340 | an episode ends exactly with five minutes of normal levels, counted from the first after the last that was not |
| PressureRuns.GapIsWait | src/alerts.rs:1357-1369 | the wait is half an hour, doubled by each reminder, and never more than four hours |
| PressureRuns.NewsIffWorse | src/alerts.rs:1346-1371 | `repeat_after` is absent exactly when the level is higher than any told this episode; otherwise it is the time since the episode was first told |
| PressureRuns.NewsSeparated | src/alerts.rs:1333-1345 | of two first alerts, the later no more severe: at least the re-arm time plus its persistence window lies between, and they are of different episodes |
| PressureRuns.AtMostTwoNews | src/alerts.rs:1346-1355 | with levels 1, 2 and 4, of any three alerts of one episode one is a reminder |
| PressureRuns.RemindersBackOff | src/alerts.rs:1356-1370 | n reminders after a first alert take at least 30 min * (2^n - 1), and from the fourth on 210 min and four hours for each further one |
| PressureRuns.LastingLevelIsTold | src/alerts.rs:1341-1356 | a level at the threshold that has been above normal as long as it requires has been told this episode, at that severity or worse |
| PressureRuns.NeverSilentForLong | src/alerts.rs:1357-1372 | while such a level lasts in a told episode, the last notice is less than four hours old |
| Disks.DiskRule.Look | src/alerts.rs:1292-1318 | one volume: alert and re-arming |
| Disks.DiskRule.Evaluate | src/alerts.rs:1288-1320 | the loop over volumes is the run of its acts |
| Disks.DisarmedIsHeld | src/alerts.rs:1298-1304 | a mount is disarmed if and only if it alerted and has not re-armed since |
| Disks.AlertsExactlyOncePerCrossing | src/alerts.rs:1288-1320 | a look alerts if and only if the volume is at its threshold and every earlier alert for it was followed by its leaving or dropping clear of it |
| Disks.LookMeans | src/alerts.rs:1288-1320 | in bytes: an armed volume alerts exactly when those in use reach its threshold of its size, and says so; a disarmed one is armed again exactly below that less five hundredths of its size |
| Disks.ListingMeans | src/alerts.rs:1286-1292 | a listing arms again exactly what is not listed any more |
| Disks.RoundMeans | src/alerts.rs:1286-1320 | a round lists exactly the mounts there are, then looks at each volume with the threshold for its mount; without a list nothing happens |
| Engine.RankSpenders | src/alerts.rs:1525-1539 | sorting and truncating keeps exactly the spenders that fewer than five spenders outrank |
| Engine.AheadIsPrefix | src/alerts.rs:1533-1535 | in a ranking of all spenders exactly i outrank the i-th |
| Engine.Judge | src/alerts.rs:1570-1593 | a verdict clears its key or asks it to notify, and an event results exactly when it does |
| Engine.JudgeProcesses | src/alerts.rs:1549-1659 | the loop over processes: book, events and records |
| Engine.AlertEngine.EvaluateApps | src/alerts.rs:1400-1501 | the application pass: its windows, the book and its events |
| Engine.AlertEngine.EvaluateProcesses | src/alerts.rs:1503-1660 | the process pass: both windows, the recording gate, the book, events and records |
| Engine.AlertEngine.Evaluate | src/alerts.rs:1270-1661 | one evaluation: the whole new state, every event and every record |
| EngineRuns.WindowsAreLogged | src/alerts.rs:1516-1523 | over any run the engine's windows are those of the lists it evaluated |
| EngineRuns.EventSource | src/alerts.rs:1563-1625 | every usage event comes from a verdict over its bar on something in the current list |
| EngineRuns.CpuAlertsAreTrue | src/alerts.rs:1563-1595 | every CPU event about a process: present in every list evaluated over the last 50 or 250 seconds, the average is the mean of exactly its samples since its last absence no older than one or five minutes, at or above the threshold told, which is the one in force for its name |
| EngineRuns.MemoryAlertsAreTrue | src/alerts.rs:1597-1625 | the same for memory: five-minute mean of the footprint, or resident size, present over 250 seconds, at or above the bar in force |
| EngineRuns.AppAlertsAreTrue | src/alerts.rs:1442-1497 | the same for applications, CPU and memory |
| EngineRuns.CpuJudgedExactly | src/alerts.rs:1565-1572 | a process is judged over its CPU bar if and only if its samples since its last absence average three times its threshold over a minute, or the threshold over five, with 50 or 250 seconds of them |
| EngineRuns.MemoryJudgedExactly | src/alerts.rs:1597-1608 | and over its memory bar if and only if 250 seconds are known and the five-minute mean is at the bar in force |
| EngineRuns.AppsJudgedExactly | src/alerts.rs:1442-1497 | the same two for applications |
| EngineBars.ProcessMemoryExactly | src/alerts.rs:1597-1608 | a process is over its memory bar if and only if 250 seconds are known and its five-minute mean in whole bytes reaches the fraction of the best entry that claims its name, or, if none does, the base fraction or the ceiling; a matching entry without a value is never judged |
| EngineBars.AppMemoryExactly | src/alerts.rs:1472-1497 | the same for applications |
| EngineBars.ProcessSamples | src/alerts.rs:1516-1523 | every list of processes adds one sample to the history of each process in it, of the time, CPU, memory, footprint and CPU-time counter, and ends that of every other |
| EngineBars.AppSamples | src/alerts.rs:1400-1440 | and every evaluation of applications one sample of each group, without a CPU-time counter |
| EngineBars.RunawayExactly | src/alerts.rs:1563-1595 | a CPU event says a runaway if and only if the one-minute mean is three times the threshold, and in either case the mean, the threshold and the window it is about |
| EngineBars.ProcessMemorySays | src/alerts.rs:1609-1625 | a memory event says the mean and the bar in bytes and as percentages of all memory |
| EngineBars.AppEventSays | src/alerts.rs:1442-1497 | an event about an application says its root, name and size, and the same figures |
| EngineBars.AppsEvaluatedMeans | src/alerts.rs:1400-1402 | applications are evaluated if and only if they are listed and a base or an entry of one of their rules has a value |
| EngineBars.AppsPassedOver | src/alerts.rs:1400-1402 | when they are not, their windows stay as they are |
| EngineBars.NothingOfApps | src/alerts.rs:1400-1402 | and nothing is told of them |
| EngineBars.ToldInOrder | src/alerts.rs:1286-1660 | an evaluation tells of disks, then of pressure, then of applications, then of processes |
| EngineRuns.PassRaises | src/alerts.rs:1549-1625 | the process pass raises whatever each verdict raises on the book as the verdicts before it left it |
| EngineRuns.FirstCrossingIsTold | src/alerts.rs:1565-1594 | a corollary: a process over its CPU bar of which nothing was noted since it was last absent is told of at once, by its name |
| EngineRuns.RecordsIgnoreOverrides | src/alerts.rs:1627-1658 | two runs that see the same processes under the same base thresholds emit identical records at every step and keep identical windows, whatever their overrides, other settings and other readings |
| EngineRuns.RecordedExactly | src/alerts.rs:1627-1658 | when records are due a process gets one if and only if it was sampled for 50 seconds and its one-minute mean is at a base threshold or it is among the five biggest spenders, and there are no others |
| EngineRecords.RecordsSay | src/alerts.rs:1644-1655 | every record is of a listed process and says the time of the snapshot, its pid and name, the means of its last minute of CPU, of resident memory in whole bytes and as a percentage, and of such footprints as there are, and its own CPU-time counter |
| EngineRecords.RecordedWhen | src/alerts.rs:1627-1643 | who gets one, of the settings and samples alone: the base CPU threshold, the base fraction of all memory or the ceiling, or a place among the spenders |
| EngineRecords.TopMeans | src/alerts.rs:1525-1539 | that place: CPU time used in the last minute, 50 seconds known, and fewer than five that used more, or as much with a smaller pid |
| EngineRecords.RecordsInOrder | src/alerts.rs:1549-1658 | records stand in the order of the processes |
| EngineRuns.RecordsAreSpaced | src/alerts.rs:1508-1514 | two evaluations that record are at least a minute apart |
| EngineRecords.DueExactly | src/alerts.rs:1508-1514 | records are due at the first evaluation that lists processes, and then at exactly those a minute or more after they were last due |
| EngineRuns.BookIsActs | src/alerts.rs:1438-1659 | over any run the book is what the two passes' judgements and retains make of an empty one |
| EngineRuns.EventsAreNotes | src/alerts.rs:1570-1593 | an event is raised exactly when its judgement adds a notification to its key, says the same, and a first crossing is always told |
| EngineRuns.NotificationsOfARun | src/alerts.rs:1690-1741 | in any run with every cooldown at least c, the notes of a key since it was last dropped obey the bound of two per cooldown and two more |
| EngineHeard.HeardIsNotes | src/alerts.rs:1400-1660 | over any run, the usage events told about a key since it was last forgotten are, in order and with their times, exactly the notes of its episodes |
| EngineHeard.HeardFollow | src/alerts.rs:1690-1741 | so of the events themselves: the first is a crossing, a follow-up comes once, half an hour or more after its crossing, and says how long; a further crossing comes its cooldown after the last |
| EngineHeard.HeardBounded | src/alerts.rs:1690-1741 | and in any span of time the engine emits at most two events per cooldown about a key, and two more |
| EngineHeard.ProcessVerdictIsHeard | src/alerts.rs:1549-1625 | whatever process verdict is over its bar, its key has been told of since the process was last absent |
| EngineHeard.AppVerdictIsHeard | src/alerts.rs:1442-1497 | the same for applications, which the process pass after them does not forget |
| EngineHeard.HotProcessIsKnown | src/alerts.rs:1563-1595 | a process whose samples are over its CPU bar has been told of since it was last absent: at once, as a crossing, if not before |
| EngineHeard.BigProcessIsKnown | src/alerts.rs:1597-1625 | the same for its memory |
| EngineHeard.HotAppIsKnown | src/alerts.rs:1442-1471 | the same for the CPU of an application |
| EngineHeard.BigAppIsKnown | src/alerts.rs:1472-1497 | the same for its memory |
| EngineSilence.SilenceIsExplained | src/alerts.rs:1691-1740 | over any run, while something is judged over its bar it has been told of, and either no evaluation later than the last event about it found it under the bar, or that event is within the cooldown |
| EngineSilence.FollowUpIsHeard | src/alerts.rs:1707-1716 | if it has not been under its bar since a crossing was told, then after half an hour its follow-up has been told |
| EngineRules.PressureIsItsRun | src/alerts.rs:1322-1393 | over any run the engine's pressure fields are those of the rule on its own, and the pressure events told are its notices, in order |
| EngineRules.WarningsMeetThreshold | src/alerts.rs:1322-1356 | every pressure event is of an evaluation at its time, of the level seen there, and at or above the threshold then in force |
| EngineRules.PressureIsHeard | src/alerts.rs:1329-1393 | once the level has been high for as long as it must, the engine has told of it, and it is not silent for four hours while that lasts |
| EngineRules.DisksAreTheirRounds | src/alerts.rs:1286-1320 | over any run the engine's disarmed volumes are those of the disk rule on its own, and the disk events told are its alerts, in order |
| Scheduler.StepCounts | src/scheduler.rs:104-191 | which steps add a pending collect and which clear one |
| Scheduler.RunBounded | src/scheduler.rs:104-191 | every step keeps the bound and, without `collect_once`, the exact meaning of the flag |
| Scheduler.NeverMoreThanCallsPlusOne | src/scheduler.rs:21-28 | in every interleaving the collects not yet cleared never exceed one plus the calls of `collect_once`; with none, the flag is set exactly when one is pending |
| Scheduler.BoundIsReached | src/scheduler.rs:143-148 | for every number of calls some interleaving reaches that bound, with every collect still waiting for the collector's lock |
| Scheduler.OneCollectAtATime | src/scheduler.rs:174-178 | however many are pending, at most one collect holds the collector's lock |
| Scheduler.CallsAndTicks | src/scheduler.rs:104-172 | a call takes no notice of the flag and sets it, whatever it was; a tick that finds it set changes nothing, and one that finds it clear sets it in the same step |
| Scheduler.DispatchedBeforeNextTick | src/scheduler.rs:104-116 | a loop that has a snapshot takes no other tick before it is dispatched |
| Scheduler.OneLoopRuns | src/scheduler.rs:85-140 | however often it is started and stopped, at most one loop is not told to leave, and there is one exactly while the scheduler runs |
| Scheduler.StartsAndStops | src/scheduler.rs:85-140 | a second start changes nothing, a first adds one loop, and a stop tells it to leave wherever it stands |
| Scheduler.StoppedLoopCanLeave | src/scheduler.rs:104-140 | a loop told to leave can always do so, whatever its collect is doing |
| Scheduler.AbandonedStopsTheLoop | src/scheduler.rs:104-125 | a corollary: with the loop alone, after a collect panicked with nobody waiting no collect is started again without `collect_once` |
| Scheduler.TimeOutThenPanic | src/scheduler.rs:181-189 | a run in which that happens |
| Scheduler.DropThenPanic | src/scheduler.rs:143-192 | so does a call dropped while it waits for a collect that then panics |
| Scheduler.StuckStays | src/scheduler.rs:104-125 | from a stuck state, no steps but a call of `collect_once` clear the flag or start a collect |
| Scheduler.StuckMeansAbandoned | src/scheduler.rs:167-192 | in any reached state that is stuck, a collect has panicked with nobody waiting for it |
| Scheduler.FlagCanClearIffNotStuck | src/scheduler.rs:167-192 | in any reached state, whatever was called, the flag can be cleared without a further `collect_once` if and only if the state is not stuck |
| Scheduler.StuckIffAbandonedWithoutCalls | src/scheduler.rs:167-192 | with the loop alone, a reached state is stuck if and only if a collect was so abandoned |
| Scheduler.FlagCanClearIffNoneAbandoned | src/scheduler.rs:167-192 | without `collect_once`, the flag can be cleared from a reached state if and only if no collect was so abandoned |
| Attach.HistoryBuffer.Push | src/bin/zstats/daemon.rs:69-81 | the new buffer after one push |
| Attach.BufferIsSuffix | src/bin/zstats/daemon.rs:69-81 | whatever the clock does, the buffer holds the newest snapshots, and always the last |
| Attach.PushDrops | src/bin/zstats/daemon.rs:72-80 | a push drops exactly a front run of snapshots too old for the new one |
| Attach.BufferExact | src/bin/zstats/daemon.rs:69-81 | with a clock that does not run back, the buffer is exactly the snapshots within the retention span of the newest |
| Attach.AttachHasNoHole | src/bin/zstats/daemon.rs:242-265 | in every interleaving the frames are the copied suffix and then an unbroken run that starts no later than where it ends, so every snapshot from the oldest copied one on is there |
| Attach.CopyIsBuffer | src/bin/zstats/daemon.rs:242-265 | what a client copies is the history buffer as it was at that moment |
| Attach.CopyingFirstLeavesAHole | src/bin/zstats/daemon.rs:243-246 | copying before subscribing can miss a snapshot for good |
| History.HistoryStore.Append | src/records.rs:134-152 | the whole new store: the file extended, and the sweep if due |
| History.HistoryStore.MaybeCleanup | src/records.rs:157-168 | a sweep exactly when the date differs from the last one's |
| History.SweepsOncePerDate | src/records.rs:157-168 | a second append of one date sweeps nothing, whatever files have turned up |
| History.HistoryStore.Cleanup | src/records.rs:202-224 | exactly the files before the cutoff are removed and reported; none if the cutoff leaves the calendar |
| History.CalendarEnds | src/records.rs:202-208 | dates run from the year -9999 to the year 9999, and a sweep whose cutoff would lie before them removes nothing |
| History.HistoryStore.ReadRange | src/records.rs:173-196 | the loop over dates, to the last day of the calendar, reads the files of the range in order |
| History.AppendedSweeps | src/records.rs:154-168 | skipping the sweep is harmless: after any append no file is older than thirty days before it |
| History.FilesAreSurvivors | src/records.rs:134-168 | after any run of appends, dates in any order and with any restarts, each file holds exactly the records for its date that no later append outdated |
| History.ReadRangeIsLog | src/records.rs:173-196 | with dates that do not run back, a range reads as the append log filtered to it and to thirty days before the last append, in append order |
| Config.ValueOfDecimal | src/config.rs:166-173 | the digits printed for a number spell that number |
| Config.DecimalIsShortest | src/config.rs:166-173 | and none of them is wasted |
| Config.TrimSplits | src/config.rs:126 | trimming leaves the text between white space, which neither starts nor ends with any |
| Config.TrimOnly | src/config.rs:126 | and that text is unique |
| Config.PartsRead | src/config.rs:125-141 | digits, white space and a unit, with white space around, read as that number and unit |
| Config.PartsOnlyRead | src/config.rs:125-141 | and only such a text reads |
| Config.SizeMeans | src/config.rs:125-157 | a text read as a number and a unit is that many bytes if and only if they fit in 64 bits, out of range if and only if they do not, and refused if and only if the unit is unknown |
| Config.SizeReadIff | src/config.rs:125-157 | over all texts, n is what is read if and only if the text is digits and perhaps a known unit that come to n, and n fits |
| Config.SizesSpelt | src/config.rs:141-157 | for each unit by name, binary, decimal and single letters: that many bytes as long as they fit |
| Config.DurationsSpelt | src/config.rs:42-53 | for `ms`, `s`, `m` and `h`: that many milliseconds, each a million nanoseconds |
| Config.OtherUnits | src/config.rs:47-51 | any other unit is refused by both |
| Config.SpacesMean | src/config.rs:126 | what is trimmed is exactly the characters Unicode calls white space |
| Config.RefusedTexts | src/config.rs:125-141 | a text of white space alone is empty, and any other that does not read as a number and a unit is a bad number |
| Config.ZerosPrinted | src/config.rs:56-61 | zero is printed as `0s`, and as a size as `0B` |
| Config.DurationMeans | src/config.rs:24-53 | a text read as a number and a unit is that many milliseconds if and only if they fit in 64 bits, overflows if and only if they do not, and is refused if and only if the unit is unknown |
| Config.OverflowsIff | src/config.rs:39-46 | over all texts, the unchecked product overflows if and only if digits that fit in 64 bits stand before a known unit that takes them past it |
| Config.HoursOverflow | src/config.rs:46 | of all numbers of hours that are read, exactly those from 5124095576031 on overflow |
| Config.LargestSizeUnit | src/config.rs:160-174 | the printed unit is the largest one that divides the value exactly |
| Config.SizeRoundTrip | src/config.rs:125-174 | every 64-bit size reads back as itself |
| Config.SpaceAround | src/config.rs:126 | white space around a size changes nothing, errors included |
| Config.CaseIgnored | src/config.rs:141 | nor does the case of its letters |
| Config.LargestDurationUnit | src/config.rs:56-71 | the printed unit is the largest one that divides the milliseconds exactly |
| Config.DurationReadsBack | src/config.rs:24-71 | what is printed reads back as the milliseconds printed, without overflow |
| Config.DurationRoundTrip | src/config.rs:24-71 | a duration survives if and only if it is a whole number of milliseconds that fits in 64 bits |

## Left out

- Rounding: `f32` and `f64` are reals, so averages, shares and thresholds are exact, there is no NaN, and `total_cmp` is the order of the reals.
- Byte order: fields are little-endian, which the supported hosts are; the code reads host order.
- Sockets, files and clocks: `sysinfo`, `sysctl`, `ioreg`, `/proc`, netlink and file calls are inputs. Sending, `send_all` and the layout of the request (`src/listeners/sockdiag.rs:107-124`) are not modelled.
- Broadcast lag (`src/bin/zstats/daemon.rs:261`), sink time-outs, failed file removals and partial writes do not happen in the model.
- Files of the history directory that are not named by a date, and lines that do not parse, which the code steps over.
- JSON, TOML and the encoding of records in files.
- Diag.ReadDump: receives and their errors are a given sequence, and the first error ends it.
- The test-only `local_port` of a flow, and the attribution of listeners to process names.
- The `top_consumers` list and the swap figures of a pressure event, display names, and all wording.
- Merging of configuration with the template and the contents of the template files; thresholds are arbitrary values at every step.
- Sorting: the library's sorts are insertions here, stable where the code relies on it; hash maps are visited in an arbitrary order.
- Engine windows exist from the start instead of being created on first use; an empty window behaves the same.
- Drive rates, per-process CPU percentages between refreshes, disk deduplication and the collector's cadence caches.
- Scheduler: what a collect returns, and the dispatch to sinks beyond its being a stage of a round.
- Dropping the runtime with loops or blocking tasks still in it.
