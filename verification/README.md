# Verified model of the log server

The log server gathers logs into snapshots on disk and answers bounded questions about them. This
project models the parts where a small loop or a short protocol carries a promise that no single
body shows, and proves the promise for every input, every run or every interleaving.

| file | models |
|---|---|
| `Foundations.dfy` | sums over maps, stable sorting and uniqueness of sorted lists, filtering, paging arithmetic |
| `RouteSketch.dfy`, `RouteAnalysis.dfy`, `RoutePayloads.dfy`, `TopRoutes.dfy` | the bounded top-route analysis: a heavy-hitters sketch, then a second exact scan |
| `SourceSelection.dfy` | choosing the collected sources that a request names, once for analysis and once for views |
| `ErrorGroups.dfy`, `GroupedAnalysis.dfy`, `ErrorPaging.dfy`, `IncidentBundle.dfy`, `SourceTimes.dfy` | grouped errors under a safety cap, their pages, the incident bundle and the timestamps it reports |
| `TimeFilter.dfy` | the chunked copy, its line count, and the since/until filter |
| `Base64.dfy`, `PagedTransfer.dfy`, `SpoolTransfer.dfy` | the paged docker-log transfer, against any server and against the spool server |
| `SnapshotModel.dfy`, `SnapshotLifecycle.dfy`, `SnapshotRuns.dfy`, `SnapshotRetention.dfy` | archive, prune, create, prepare, collect and save of workflow snapshots, single runs, sequences of runs, and which snapshots they leave |
| `SnapshotStore.dfy` | the same transaction as a class that changes rows and directories in place |
| `SnapshotFailures.dfy`, `SnapshotSteps.dfy` | runs as single steps that may fail or be cancelled at any point, and whole runs as sequences of them |
| `CollectionLock.dfy` | the cross-process lock, the worker threads and cancellation, as interleaved steps |
| `RoundRobin.dfy`, `FilteredView.dfy`, `FilteredLength.dfy` | bounded candidate buffers and the round-robin sampler |
| `Utf8Truncation.dfy` | the byte-bounded UTF-8 truncation that four files share |
| `BackupScan.dfy` | the backup inspection with one entry budget over several directories |
| `ImageReference.dfy` | splitting an image reference |

The classes (`RouteCandidateTable`, `RouteAccumulator`, `ErrorGroupAccumulator`,
`FilteredLineCandidates`, `WorkflowStore`, `BackupWalk`) change their fields where the program does.
Each method is tied to a function or relation on the old state, and the lemmas are about those.
Where the program's order of iteration is open (dictionary ties, directory order), the model leaves
it open too, and the results hold for every choice.

## What holds only under a condition

These promises do not hold of the code on all inputs. Each has its exact condition and a failing input.

- **A run keeps rows and directories in step** if and only if the archive directory of the previous
  snapshot's second is free, and a project named `latest` has no stored files or sees them expire in
  the same run (`SnapshotLifecycle.CompletedRunIsConsistent`; over sequences of runs,
  `SnapshotRuns.RunsStayConsistentExactly`, and read off the runs alone,
  `SnapshotRetention.RunsDecideConsistency`). Archive names have whole seconds and an equal name is
  deleted first; a stored file path is rewritten at its first `latest` component. Two runs of one
  project in the same second (`SnapshotRuns.SameSecondIsUnsafe`) and one run of a project `latest`
  (`SnapshotRuns.ProjectLatestIsUnsafe`) reach stores that the next run, though it completes, leaves
  inconsistent.
- **A worker writes only under its own lock** as long as no cancellation hits the second, unshielded
  await of a worker that is running; every schedule without such a step is safe however often its
  collections are cancelled (`CollectionLock.OrphanFreeIsSafe`), and exactly such a step lets the lock
  be given back under a running worker (`CollectionLock.OrphaningIsExactlyUnsafe`). The comment at
  `src/services/log_collection.py:512-513` promises it without the condition.
  `CollectionLock.OverlapIsSchedule` is a run with two workers alive. In terms of numbers: all
  schedules are safe if and only if no collection may be cancelled more than once
  (`CollectionLock.SafeExactlyUpToOneCancellation`).
- **A filtered view has min(max_lines, kept) lines** for every content if and only if no source key is
  selected twice (`FilteredLength.FullLengthExactlyForDistinctKeys`,
  `FilteredLength.RepeatedKeyShowsTwice`).
- **`missing` means that no configured location holds a backup** if and only if no matching regular
  file failed its examination (`BackupScan.MissingIsTrueUnlessHidden`). The scan passes over such a
  file without a warning: a directory that may be listed but not searched is reported as `missing`
  with a complete scan (`BackupScan.UnsearchableDirectoryIsMissing`).
- **A page that passes validation continues or ends the transfer** unless its `next_offset` is a JSON
  real equal to the right integer: the page loop then fails an assertion, and only then
  (`PagedTransfer.EveryStopIsExplained`, `PagedTransfer.RealOffsetRaises`).
- **A given upper time bound is used for docker sources** if and only if it is not the number 0, which
  counts as missing and becomes the time of collection (`PagedTransfer.GivenBoundIsUsed`; file sources
  do use it, `src/services/log_collection.py:982-985`).
- **An empty list of source keys means the same everywhere**: analysis takes it for all sources, a
  filtered view for none, and the two selections agree if and only if the list is not empty or there
  is nothing to select (`SourceSelection.SelectionsAgree`, `SourceSelection.EmptyRequestNamesNothing`).
- **A source's timestamps are bounds**, says the comment at `src/services/log_analysis.py:1216`; they
  are the first and last in ranking order. The first is a lower bound, and the last an upper bound,
  for every assignment of timestamps if and only if at most one group names the source
  (`SourceTimes.TimestampsAreBoundsExactly`); `SourceTimes.TimestampsCanCross` is a failing input.
- **A selection of readable files can be analyzed** if and only if no line reached before the cap
  raises in its classification (`GroupedAnalysis.GroupSnapshotErrors`, `GroupedAnalysis.RaisingLineFails`).
  A line raises, for one, when its structured message cannot be encoded: JSON may escape a lone surrogate
  (`src/services/log_analysis.py:1436`, `:1516`, `:1531`), and truncation fails on exactly the texts
  that UTF-8 cannot encode (`Utf8Truncation.LineIsLongestPrefix`, `Utf8Truncation.LoneSurrogateRaises`).
  Raw lines, matches and previews come from files and always can be
  (`Utf8Truncation.TextReadIsEncodable`).

Two laws hold beyond what the code uses, and are stated with their exact domain. A preview is stable
under a second truncation if and only if the bound is not negative or leaves no room for the first
character (`Utf8Truncation.PreviewTruncationIsIdempotent`, `Utf8Truncation.NegativeBoundKeepsShrinking`);
the only caller rejects bounds below 1 (`src/tools/snapshots.py:283`). Splitting a joined image
reference returns its parts if and only if they are well formed (`ImageReference.SplitJoinExactly`,
`ImageReference.BarePortIsReadAsTag`); the program only splits.

Assumptions on the surroundings: snapshot files do not change between the two proxy scans or between
pages of one walk; `max_groups` is at least 1 and `offset` at least 0, as `src/tools/analysis.py:148-181`
enforces; the spool server's page cap is positive; one snapshot run is active at a time, as the lock
provides.

## Model

| member | source | states |
|---|---|---|
| RouteSketch.RouteCandidateTable.Record | src/services/log_analysis.py:1046-1080 | Recording one route counts a retained route, inserts while there is room, and otherwise replaces some minimal candidate, the newcomer inheriting its count plus one; the result says whether a candidate was pushed out |
| RouteSketch.VictimIsLeast | src/services/log_analysis.py:1064-1080 | The candidate pushed out has the smallest estimate, and is an upstream error only if every candidate with that estimate is one |
| RouteSketch.FlagsRememberErrors | src/services/log_analysis.py:1046-1080 | In every run a candidate counts as an upstream error exactly when one of its lines was one since it last entered the table |
| RouteSketch.StepKeepsBounds | src/services/log_analysis.py:1046-1080 | One recorded line keeps all sketch bounds, whichever minimal candidate it evicts: estimates sum to the stream length, no estimate is too low or too high by more than any other estimate, routes outside are no more frequent than any estimate inside |
| RouteSketch.EveryRunKeepsBounds | src/services/log_analysis.py:939-965 | The same bounds after every stream, every capacity and every resolution of ties |
| RouteSketch.SmallestEstimateIsBounded | src/services/log_analysis.py:1046-1080 | The smallest estimate times the table size never exceeds the stream length, and every retained route satisfies true <= estimate <= true + smallest |
| RouteSketch.FrequentRoutesAreRetained | src/services/log_analysis.py:1046-1080 | A route occurring more than a 1/capacity share of the stream is in the table at the end of every run |
| RouteSketch.OverflowIsExact | src/services/log_analysis.py:956-965 | The overflow flag is set exactly when more distinct routes than the capacity occurred; the reported group count is min(distinct, capacity + 1) |
| RouteAnalysis.FirstScan | src/services/log_analysis.py:930-965 | The scan's five totals and its status-class counts are those of the lines, and its table is reachable by a run over exactly the counted lines |
| RouteAnalysis.TallyPartition | src/services/log_analysis.py:930-965 | The five totals by what they mean: every line counts, parsed lines are all but the non-JSON ones, status lines are the parsed ones but successful health requests and those without a status from 100 to 599, upstream errors are the lines with status 502, 503 or 504 that attempted the upstream |
| RouteAnalysis.RouteAccumulator.constructor | src/services/log_analysis.py:464-480 | A new route group has seen nothing |
| RouteAnalysis.RouteAccumulator.Add | src/services/log_analysis.py:481-501 | After a line the group's counters, sources and first/last references are those of all its lines so far |
| RouteAnalysis.RouteAccumulator.ToPayload | src/services/log_analysis.py:503-528 | The payload describes exactly the lines merged; it is an upstream error if and only if the status is 502, 503 or 504 and some line attempted the upstream |
| RouteAnalysis.UpstreamCountersPartition | src/services/log_analysis.py:481-490 | The three upstream counters of any route add up to its count |
| RouteAnalysis.BuildRouteGroups | src/services/log_analysis.py:1082-1110 | The second scan has a group for exactly the requested routes that occur, each describing all lines of its route |
| TopRoutes.ScansAgree | src/services/log_analysis.py:939-969 | A route's second-scan count equals its first-scan count unless it is a successful health route, which the first scan never records, although the second scan has no health check |
| TopRoutes.RankRoutes | src/services/log_analysis.py:966-979 | The ranking holds each retained route once, with its exact payload, in the public order, stated by values: descending counts, then upstream errors first, then descending status, then ascending path |
| RoutePayloads.SignalDescribesRoute | src/services/log_analysis.py:1082-1110 | A payload says of the lines themselves how many are on its route, how many of them attempted the upstream, did not or do not say, which sources hold them, and where the first and the last stand |
| TopRoutes.RankedCountsAreTrue | src/services/log_analysis.py:966-979 | Every ranked route is reported with its true number of occurrences |
| TopRoutes.RankedCountsFit | src/services/log_analysis.py:966-997 | Ranked counts never add up to more than the status lines, and to exactly that many without overflow |
| TopRoutes.FrequentRoutesAreReported | src/services/log_analysis.py:921-1110 | Every route with at least status_lines / max_groups occurrences is in the response with its true count, although at most max(32, 4 * max_groups) candidates are held |
| TopRoutes.CountsAreConserved | src/services/log_analysis.py:937-998 | Without overflow route counts add up to http_status_line_count, and upstream attempts of the 502/503/504 groups to upstream_error_count |
| TopRoutes.TruncationIsExact | src/services/log_analysis.py:910-998 | Routes are reported as omitted exactly when more than max_groups distinct routes occurred, and the group count is exact exactly when they fit max(32, 4 * max_groups) candidates |
| RouteAnalysis.StatusClassIsCentury | src/services/log_analysis.py:1361-1377 | A status code has a class exactly when its century is 1 to 5, and the class is that century's |
| RoutePayloads.StatusClassesAddUp | src/services/log_analysis.py:987-994 | The reported status classes add up to http_status_line_count |
| RoutePayloads.ClassCountsListClasses | src/services/log_analysis.py:987-994 | Each reported class has the number of counted lines of its century, never 0; every class with a counted line is listed, and the classes ascend |
| TopRoutes.AnalyzeProxyActivity | src/services/log_analysis.py:921-998 | The whole analysis, for every input of lines and max_groups: the totals, each status class with its own count, at most max_groups routes in the public order, each with the numbers of its own lines, and among them every route with a 1/max_groups share |
| TopRoutes.AnalyzeProxySources | src/services/log_analysis.py:1006-1042 | Over the selected proxy files it fails exactly when one cannot be read to its end, and otherwise promises the same of all their lines |
| TopRoutes.AllLinesInOrder | src/services/log_analysis.py:1006-1042 | The lines of all files are taken file after file, each from its first line |
| SourceSelection.SelectSnapshotFiles | src/services/log_analysis.py:1185-1210 | Fails exactly when a requested key belongs to no collected source, listing those keys sorted; otherwise returns the collected sources with a file that the request names, in stored order, and all of them for an empty request |
| SourceSelection.AvailableInOrder | src/services/log_analysis.py:1198-1200 | The available sources stand in stored order, and only collected ones with a file are among them |
| SourceSelection.AvailableIs | src/services/log_analysis.py:1198-1200 | The available sources are exactly the collected ones with a file |
| SourceSelection.SelectionAnswersRequest | src/services/log_analysis.py:1198-1210 | An accepted request selects all and only the available sources it names, and finds each of its keys |
| SourceSelection.SelectViewFiles | src/services/log_filtering.py:200-226 | Fails exactly when a requested key belongs to no collected source, listing those keys sorted; otherwise returns the collected sources with a file that the request names, in stored order: all of them without a request, none for an empty one |
| SourceSelection.SelectionKeepsDistinct | src/services/log_filtering.py:200-226 | Where stored keys are distinct the keys selected for a view are, whatever is requested |
| SourceSelection.EmptyRequestNamesNothing | src/services/log_filtering.py:222-226 | An empty request selects nothing for a view |
| SourceSelection.SelectionsAgree | src/services/log_filtering.py:222-226 | The selections for analysis and for views agree exactly unless the request is empty and there is something to select |
| ErrorGroups.ErrorGroupAccumulator.constructor | src/services/log_analysis.py:353-381 | A new group carries its fingerprint and identity and tracks no events |
| ErrorGroups.ErrorGroupAccumulator.Add | src/services/log_analysis.py:383-413 | The group tracks the old events followed by the new one: count, sources, the distinct non-empty paths, methods, hosts and levels, the status codes, the explicit-message flag, first and last timestamps and references |
| ErrorGroups.ErrorGroupAccumulator.ToPayload | src/services/log_analysis.py:415-441 | The payload describes exactly the tracked events, with the identity of the first |
| ErrorGroups.Merge | src/services/log_analysis.py:681-697 | An event is admitted exactly when its group exists or there is room, and then the table holds the groups of all admitted events; otherwise nothing changes and the cap is really exceeded |
| ErrorGroups.ScanSource | src/services/log_analysis.py:670-699 | One file's loop merges its matching lines up to the first that would exceed the cap, which it counts without merging it, or to the first that raises |
| ErrorGroups.ScanSources | src/services/log_analysis.py:659-703 | The two-level loop stops at the first line beyond the cap, the first line that raises or the first missing file, having merged the longest admissible prefix; the searched sources end with the one where the cap was hit |
| ErrorGroups.CappedLengthIsLongest | src/services/log_analysis.py:683-685 | The merged prefix is the longest with at most `limit` distinct fingerprints: exactly the prefixes up to it fit |
| GroupedAnalysis.RankGroups | src/services/log_analysis.py:705-712 | The ranking holds every group of the merged events exactly once, in the public order, stated by values: high before medium before low, then descending counts, then ascending fingerprints |
| GroupedAnalysis.GroupDescribesEvents | src/services/log_analysis.py:383-441 | A group says of the merged events themselves how many have its fingerprint, which sources, paths, methods, hosts, status codes and levels they carry, and which of them come first and last, with and without a timestamp |
| GroupedAnalysis.SliceIsPublic | src/services/log_analysis.py:1380-1387 | Every page of the ranking is in the public order, and each of its groups describes its own events |
| GroupedAnalysis.RankingIsUnique | src/services/log_analysis.py:705-712 | Only one such ranking exists, so the table's iteration order never shows |
| GroupedAnalysis.GroupCountsAddUp | src/services/log_analysis.py:664-712 | Group counts add up to the merged events |
| GroupedAnalysis.GroupSnapshotErrors | src/services/log_analysis.py:652-721 | Fails exactly for a limit below 1, for unknown requested keys, or for a missing file or a raising line that is reached before the cap; otherwise reports the requested slice of the unique ranking, in the public order and each group with the facts of its own events, and how far it got |
| GroupedAnalysis.RaisingLineFails | src/services/log_analysis.py:671-699 | A raising line behind any list of matching lines fails the call exactly when these fit the cap |
| GroupedAnalysis.CappedAnalysisIsPrefix | src/services/log_analysis.py:659-721 | The capped result is the uncapped result of the longest admissible prefix; it is complete exactly when all fingerprints fit; matching_line_count is the sum of group counts, plus one when capped, and never above the true total |
| ErrorPaging.WalkCollectsPrefix | src/tools/analysis.py:474-507 | After k pages a client that follows next_offset holds exactly the first k * max_groups groups, and `truncated` says whether more exist |
| ErrorPaging.MergedIsDetermined | src/services/log_analysis.py:659-703 | Repeated calls on one snapshot merge the same events |
| ErrorPaging.WalkVisitsEveryGroupOnce | src/tools/analysis.py:474-507 | Following next_offset while `truncated` is set visits every group exactly once and ends after exactly max(1, ceil(total / max_groups)) pages, although each page is computed by a fresh scan |
| ErrorPaging.PartialPageIsExact | src/tools/analysis.py:507-509 | `partial_page` is false exactly when the analysis covered the whole snapshot and this one page shows every group of it |
| IncidentBundle.BuildSourceSummaries | src/services/log_analysis.py:1225-1248 | One summary per source that any group names, in key order: the number of groups it appears in, the lines of the groups first seen in it, the first timestamp of the first group naming it and the last timestamp of the last group that names it and has one |
| IncidentBundle.SummariesAdd | src/services/log_analysis.py:1225-1248 | What one more group adds to a summary: one group in each source it names, its lines only where it was first seen, the first time if none was there, the last time whenever it has one |
| SourceTimes.TimestampsFollowRank | src/services/log_analysis.py:1229-1235 | Of a high and a low group a source takes the first time of the high one and the last time of the low one, whichever times these are |
| SourceTimes.TimestampsAreBoundsExactly | src/services/log_analysis.py:1225-1235 | For any comparison of times, the reported first and last time of a source bound its groups for every assignment of timestamps if and only if at most one group names the source |
| SourceTimes.TimestampsCanCross | src/services/log_analysis.py:1225-1235 | A high group at "1" and a low one at "0": the source is reported to start after and end before one of its groups |
| IncidentBundle.SourceLinesAreConserved | src/services/log_analysis.py:1225-1248 | Per-source line counts add up to the total of all group counts, because a group's first source is always among its sources |
| IncidentBundle.SeveritiesPartition | src/services/log_analysis.py:763-765 | High, medium and low counts add up to the number of groups |
| IncidentBundle.CountsFollowRanking | src/services/log_analysis.py:763-765 | The counts stand for the ranking: its first high-count groups are the high ones, the next medium-count ones the medium ones, the rest low |
| IncidentBundle.BuildIncidentBundle | src/services/log_analysis.py:755-765 | The bundle covers every retained group, its severity counts say where each severity stands in the ranking, its top groups are in the public order, its source totals are conserved, with the extra line when the cap was hit; it fails exactly where grouping fails |
| TimeFilter.CopyFileToOutput | src/services/log_collection.py:938-956 | The chunked copy writes the input unchanged and counts its bytes and lines, wherever chunks fall |
| TimeFilter.WriteFileToOutput | src/services/log_collection.py:891-936 | The one-bit filter writes exactly the lines whose governing timestamp lies in the window; the reported counts are those of the bytes written, and the line count is the number of kept lines |
| TimeFilter.KeptByTime | src/services/log_collection.py:913-931 | A line is kept exactly when the latest timestamp up to it is neither before `since` nor after `until`; before any timestamp, exactly when no bound is given |
| LineCounting.LinesOfFlatten | src/services/log_collection.py:914-931 | Reading back written lines yields the same lines, so a filtered file has the line structure of the kept lines |
| LineCounting.LineCountIsLines | src/services/log_collection.py:932-936 | The newline-based count equals the number of lines a reader sees |
| TimeFilter.KeptLinesCompose | src/services/log_collection.py:913-931 | On line lists, filtering by one window and then another keeps the lines of the intersected window |
| TimeFilter.FiltersCompose | src/services/log_collection.py:891-936 | On file contents, filtering twice is filtering once by the intersection |
| TimeFilter.OrderedInputKeepsOneBlock | src/services/log_collection.py:970-986 | If timestamps never decrease, the kept lines are one contiguous block |
| Base64.DecodeEncode | src/services/log_collection.py:1334-1340 | Decoding an encoded page returns its bytes, for every byte string (section 4 of RFC 4648) |
| Base64.DecodesExactly | src/services/log_collection.py:1334-1340 | The decoder accepts exactly whole quanta over the alphabet, the last with at most two padding characters |
| Base64.StandardVectors | src/services/log_collection.py:1334-1340 | The encodings that section 10 of RFC 4648 prescribes, and the two last characters of the alphabet |
| Base64.EncodedLength | src/services/log_collection.py:1334-1340 | Four characters for every three bytes begun |
| PagedTransfer.CollectDockerSource | src/services/log_collection.py:1151-1219 | Without a running container nothing is asked or written. Otherwise, for any script of replies: collected exactly when the replies form a closed chain, with its page, byte and line counts and the limit of its last page; raised exactly at a page with a real next offset; unavailable exactly at an error reply or invalid page, as timeout or engine failure exactly for their codes. The requests are exactly the client's, with an upper time bound that is missing or the number 0 frozen once |
| PagedTransfer.GivenBoundIsUsed | src/services/log_collection.py:1160-1163 | A given upper bound is used exactly when it is not the number 0 |
| PagedTransfer.StreamDockerLogPages | src/services/log_collection.py:1280-1324 | The page loop with its counters and cursor gives the outcome just described and the bytes its pages carried, and asks for exactly the pages it asks for |
| PagedTransfer.OffsetTypeIsOpen | src/services/log_collection.py:1326-1378 | Validation compares numbers across their JSON types: a page whose offset is a real or a boolean passes exactly where the equal integer would |
| PagedTransfer.OutcomeIsExplained | src/services/log_collection.py:1195-1219 | The outcome of any replies by the replies alone: which chains are collected and what is reported of them, which pages raise, and which failure an error code becomes |
| PagedTransfer.RequestsFollowReplies | src/services/log_collection.py:1299-1324 | Every request asks for 1000000 bytes at the offset of all bytes carried before it; the first carries the query, every later one the transfer id of the page before |
| PagedTransfer.ErrorNamesViolation | src/services/log_collection.py:1326-1378 | An invalid page is called undecodable exactly when its bytes are; a contradicting field, a missing continuation and stray fields of a last page are named only where they are |
| PagedTransfer.OnlyTheFirstRequestQueries | src/services/log_collection.py:1301-1313 | Docker is queried once per transfer: every later request only names its transfer and offset |
| PagedTransfer.RunningMeansContinuous | src/services/log_collection.py:1299-1324 | A transfer is still running exactly while every reply was a valid page at the offset of all bytes before it; its offset is then the number of bytes written |
| PagedTransfer.AcceptedExactlyOnChains | src/services/log_collection.py:1326-1378 | A transfer succeeds exactly on a gap-free chain of pages closed by a final one without next_offset, and the file is then precisely what the chain carried |
| PagedTransfer.EveryStopIsExplained | src/services/log_collection.py:1317-1324 | A transfer raises exactly when its chain of pages reaches one whose next offset is a JSON real, and is unavailable exactly when it reaches an error reply or a page that breaks the contract |
| PagedTransfer.RealOffsetRaises | src/services/log_collection.py:1359-1365 | Any otherwise honest first page with a real next offset passes validation and then raises |
| PagedTransfer.ValidExactlyByContract | src/services/log_collection.py:1326-1378 | Validation accepts exactly the payloads with decodable bytes, the expected offset, an honest byte count, a positive limit, and either real progress with a transfer id or a clean end |
| SpoolTransfer.PageRoundTrip | socket-app/src/socket_app/adapters.py:174-202 | A page the spool serves at its expected offset passes the client's validation with the same bytes |
| SpoolTransfer.SpoolIsTransferredExactly | socket-app/src/socket_app/adapters.py:102-213 | Against one immutable spool every transfer ends within the needed rounds; it succeeds exactly when the log fits the transfer limit and the spool is alive at every page, the first included; the file then equals the spool and the spool is deleted. Otherwise the source is unavailable and a prefix is written, a proper one of any log but the empty |
| SpoolTransfer.TransferTakesEveryRound | socket-app/src/socket_app/adapters.py:174-202 | An undisturbed transfer takes exactly the needed rounds |
| SnapshotLifecycle.RewrittenFile | src/services/log_collection.py:801-811 | The rewritten file lies in the archive directory exactly unless the project is named `latest` |
| SnapshotLifecycle.ArchiveKeepsConsistency | src/services/log_collection.py:740-767 | Archiving keeps rows and directories one to one, each directory with its own row's files, if and only if the archive name is free and the project is not a `latest` with stored files |
| SnapshotLifecycle.PruneRemovesTogether | src/services/log_collection.py:769-790 | From a consistent store the walk with its name lookup removes exactly the project's archive directories older than the cutoff, each together with its row, changes nothing else, and keeps the store consistent |
| SnapshotLifecycle.PruneIsTogether | src/services/log_collection.py:777-790 | Where rows and directories are in step, the name lookup finds exactly the row that points at each expired directory |
| SnapshotLifecycle.AtMostOneLatest | src/services/log_collection.py:693-696 | A consistent store has at most one latest row per project |
| SnapshotLifecycle.CompletedRunIsConsistent | src/services/log_collection.py:402-449 | From a consistent store a completed run ends in a consistent one, which also holds the new run's files, if and only if the archive directory of the previous snapshot's second is free and a project `latest` has no stored files or sees them expire at once |
| SnapshotRuns.OtherProjectsUntouched | src/services/log_collection.py:671-790 | A run for one project, safe or not, leaves every other project's rows and directories as they were |
| SnapshotRuns.RunsStayConsistentExactly | src/services/log_collection.py:671-790 | For any sequence of runs over any projects the store is consistent after each run up to the n-th if and only if each of these runs is safe in the sense of the row above |
| SnapshotRetention.RunsDecideConsistency | src/services/log_collection.py:671-790 | Read off the runs alone: the store is consistent after each of the first n runs if and only if for each of them no earlier snapshot of its project and of the previous snapshot's second is still retained, and a project `latest` has no stored files or sees them expire; and it then holds exactly the retained snapshots |
| SnapshotRetention.RunRetains | src/services/log_collection.py:769-790 | A safe run leaves exactly the snapshots that no later cutoff of their project has passed, each with its project, time and directory time |
| SnapshotRetention.SafeExactlyWhenItFits | src/services/log_collection.py:740-767 | Against the store that earlier runs left, whether a run is safe depends on those runs alone |
| SnapshotRuns.SameSecondIsUnsafe | src/services/log_collection.py:747-752 | Two runs of one project in the same second, from the empty store, end consistent, but no later run of the project is safe |
| SnapshotRuns.ProjectLatestIsUnsafe | src/services/log_collection.py:806-811 | One run of a project `latest` that stored a file ends consistent, but its next run is not safe before the files expire |
| SnapshotModel.ResultsAreWritten | src/services/log_collection.py:466-490 | Every file that a run's results name, the diagnostics file included, was written by the run |
| SnapshotModel.RunKeepsSources | src/services/log_collection.py:466-490 | For distinct sources each collected one ends with a file of its own, named after its key, with exactly its own content, which its result and no other names; a failed one has no file in its result, and what it wrote before failing stays; a failure adds the diagnostics |
| SnapshotModel.RunWritesNothingElse | src/services/log_collection.py:466-490 | Every file of a run is such a log, or the diagnostics of a run with a failure |
| SnapshotModel.RepeatedKeyLosesLog | src/services/log_collection.py:480 | Of two sources with one key only the second keeps its content |
| SnapshotModel.ResolvedKeysAre | src/services/log_collection.py:646-669 | The resolved keys are exactly the requested ones under which some result has a file |
| SnapshotModel.SecondHoldsInstant | src/services/log_collection.py:747 | An archive name stands for the one second that holds the time of collection |
| SnapshotRuns.CompletedRunStoresSources | src/services/log_collection.py:402-449 | A completed run of distinct sources, from any store, leaves a latest row whose i-th file lies in its directory and holds the content of source i |
| SnapshotRetention.RetainedSnapshotsKeepSources | src/services/log_collection.py:740-790 | In a consistent store every retained snapshot, archived or not, still has each source of its own run: its i-th file lies in its directory and holds the content of source i |
| SnapshotStore.WorkflowStore.ArchiveLatestForProject | src/services/log_collection.py:740-767 | The archiving steps, done in place, reach the archived store, or change nothing without a latest row |
| SnapshotStore.WorkflowStore.RewriteSourceFiles | src/services/log_collection.py:756-762 | The row's stored files, and nothing else, are rewritten |
| SnapshotStore.WorkflowStore.RowsByArchiveName | src/services/log_collection.py:777-780 | The lookup knows every archived row of the project by its name |
| SnapshotStore.WorkflowStore.PruneWorkflowArchivesForProject | src/services/log_collection.py:769-790 | From any store the directory walk removes exactly the expired archive directories and, for each, the row that the lookup has for its name |
| SnapshotStore.WorkflowStore.CreateWorkflowCollectLogs | src/services/log_collection.py:671-705 | From any store it archives, prunes and adds the one new latest row |
| SnapshotStore.WorkflowStore.PrepareWorkspace | src/services/log_snapshots.py:590-609 | Leaves an empty latest directory and an archive root, and nothing else changed |
| SnapshotStore.WorkflowStore.CollectSources | src/services/log_collection.py:466-490 | Source by source, with partial files of failed ones and the diagnostics file exactly when some source failed, the directory ends with the run's files and the results name them; distinct sources each keep a file of their own with their own content |
| SnapshotStore.WorkflowStore.SaveSources | src/services/log_collection.py:646-669 | The row names the collected files of its own directory, and the requested keys that produced a file |
| SnapshotStore.WorkflowStore.BuildWorkflowLogs | src/services/log_collection.py:402-449 | From any store the transaction, in place, is one completed run in the sense of the rows above, and stores every one of distinct sources under its own name |
| SnapshotFailures.AtMostOneLatestAlways | src/services/log_collection.py:671-790 | However many runs fail or are cancelled, and wherever they stop, no project ever has two latest rows, not even in between |
| SnapshotFailures.StepsStayInProject | src/services/log_collection.py:740-790 | No step of a run, completed or not, touches a row of another project |
| SnapshotFailures.StopWhileArchivingBreaksStep | src/services/log_collection.py:753-767 | A run that stops between moving the directory and marking the row leaves a row that points at nothing |
| SnapshotSteps.RunIsStepSequence | src/services/log_collection.py:402-449 | Every completed run, from any store, is a sequence of these steps from taking the lock to giving it back: what holds after every step holds during whole runs |
| CollectionLock.StepKeepsInv | src/services/log_snapshots.py:141-160 | Every step except cancelling the second await of a running worker keeps the protocol invariant: the lock is held exactly by the collection inside its transaction, and a worker is alive only while it is awaited |
| CollectionLock.OrphanFreeIsSafe | src/services/log_collection.py:492-515 | In every interleaving without that step, whatever the number of cancellations, a worker writes only under its own lock, so two workers are never alive together and none outlives the release |
| CollectionLock.OrphaningIsExactlyUnsafe | src/services/log_collection.py:511-515 | Exactly that step leads to a state in which releasing the lock leaves a worker alive without it |
| CollectionLock.OneCancellationIsSafe | src/services/log_collection.py:492-515 | At most one cancellation per collection is enough for the same guarantees in every interleaving |
| CollectionLock.CancelledNeverSaves | src/services/log_collection.py:511-515 | In every interleaving, orphaning steps included, a cancelled collection never saves results, and results are saved only once the worker has ended |
| CollectionLock.OnlySavedLeaves | src/services/log_collection.py:492-515 | In every interleaving a collection that nobody cancels and that does not fail saves its results before it leaves |
| CollectionLock.OverlapIsSchedule | src/services/log_collection.py:511-515 | A schedule with two cancellations of one collection in which its worker outlives the lock and a second worker runs beside it |
| CollectionLock.SafeExactlyUpToOneCancellation | src/services/log_collection.py:492-515 | All schedules that allow each collection n cancellations are safe if and only if n is at most one |
| CollectionLock.EveryCollectionCanFinish | src/services/log_snapshots.py:149-160 | From every state satisfying the invariant some continuation finishes every collection and frees the lock: no deadlock |
| RoundRobin.FullOrderIsTheSortedOrder | src/services/log_filtering.py:385-398 | The sampler's visiting order is the one arrangement of all lines sorted by (index within source, source position) |
| RoundRobin.CappedSampleIsExact | src/services/log_filtering.py:365-367 | Cutting every source's buffer at max_lines does not change the first max_lines of the sample |
| FilteredView.FilteredLineCandidates.Store | src/services/log_filtering.py:339-367 | Each buffer stays the first max_lines of the kept lines it is meant for |
| FilteredView.FilteredLineCandidates.Select | src/services/log_filtering.py:369-398 | The final list is what unbounded buffers, cut once at the end, would give in the same mode |
| FilteredView.ErrorViewIsPublic | src/services/log_filtering.py:380-383 | In mode errors as many lines as fit are shown, incident lines first and a regular line only when every kept incident line is shown; the shown lines of either kind are the first kept ones in reading order |
| FilteredView.SampleRounds | src/services/log_filtering.py:385-398 | The round-robin loop terminates and returns the first max_lines in round order |
| FilteredView.CreateFilteredView | src/services/log_filtering.py:200-337 | Fails exactly for unknown requested keys, or with the error of the first selected file that cannot be read; otherwise totals, per-source summaries and shown lines are those of the selected sources, none for an empty request; in mode head the lines are the first kept ones, in mode errors as in the row above; `truncated` holds exactly when more than max_lines were kept |
| FilteredView.ItemsInReadingOrder | src/services/log_filtering.py:239-255 | Lines are read source after source, each from its first line |
| FilteredView.TallyAddsUp | src/services/log_filtering.py:254-281 | Every line is counted once, as kept or as excluded, and the kept lines are exactly those the profile keeps |
| FilteredView.ReasonsAdd | src/services/log_filtering.py:277-281 | An excluded line adds its own reason, or the standing one if it has none; a kept line adds none |
| FilteredView.TopReasons | src/services/log_filtering.py:311-314 | The listed reasons are distinct, at most three, in order of frequency, none left out is more frequent, and fewer than three only if there are no more |
| FilteredView.ReasonsCoverExcluded | src/services/log_filtering.py:277-281 | Every excluded line is counted under exactly one reason |
| FilteredLength.ViewLength | src/services/log_filtering.py:369-398 | The length of a view in every mode and for every selection, repeated keys included |
| FilteredLength.FullLengthExactlyForDistinctKeys | src/services/log_filtering.py:387-398 | Views have min(max_lines, kept) lines for every content if and only if no source key is selected twice |
| FilteredLength.RepeatedKeyShowsTwice | src/services/log_filtering.py:387-391 | With a repeated key a single kept line is shown twice |
| FilteredLength.SampleIsFirstInSortedOrder | src/services/log_filtering.py:385-398 | With distinct keys the sample is the first max_lines kept lines sorted by (index within source, source position) |
| Utf8Truncation.DecodedPrefixIsLongestFit | src/services/log_analysis.py:216-222 | Decoding any byte prefix of an encoded text, malformed tail ignored, yields the longest code-point prefix that fits; no earlier character is altered (sections 3 and 4 of RFC 3629) |
| Utf8Truncation.CutCharacterVanishes | src/services/log_analysis.py:222 | A cut-off character is dropped whole |
| Utf8Truncation.DecodeEncode | src/services/log_filtering.py:564-569 | Encoding and decoding return the text |
| Utf8Truncation.DecodedIsEncoding | src/services/log_analysis.py:222 | What the decoder takes for a character is exactly its encoding: no overlong form and no surrogate |
| Utf8Truncation.MalformedIsMaximal | src/services/log_analysis.py:222 | A malformed step skips as many bytes as begin some character, or one byte where the first begins none (section 3.9 of the Unicode Standard) |
| Utf8Truncation.EncodedSize | src/services/log_filtering.py:565 | A character takes 1, 2, 3 or 4 bytes, by the ranges of section 3 of RFC 3629 |
| Utf8Truncation.StandardExamples | src/services/log_filtering.py:565 | The encodings that section 7 of RFC 3629 prints |
| Utf8Truncation.LineIsLongestPrefix | src/services/log_snapshots.py:527-533 | A truncated line is the longest prefix within 2000 bytes, and the flag is set exactly when something was dropped |
| Utf8Truncation.LineTruncationIsIdempotent | src/services/log_filtering.py:564-569 | Truncating a truncated line changes nothing and flags nothing |
| Utf8Truncation.PreviewIsLongestPrefix | src/utils/log_preview.py:14-20 | A preview is the longest prefix within the bytes the bound leaves, negative bounds included |
| Utf8Truncation.PreviewTruncationIsIdempotent | src/utils/log_preview.py:14-20 | A second pass changes nothing if and only if the bound is not negative or leaves no room for the first character |
| Utf8Truncation.NegativeBoundKeepsShrinking | src/utils/log_preview.py:17-20 | Under the bound -1 two letters become one and then none |
| Utf8Truncation.TextReadIsEncodable | src/services/log_snapshots.py:498-533 | Whatever bytes a file holds, the text read from it can be encoded, so truncating raw lines, matches and previews never raises |
| Utf8Truncation.ReplacementExample | src/services/log_filtering.py:248 | Three cut-off characters before a letter are read as three replacement characters |
| Utf8Truncation.LoneSurrogateRaises | src/services/log_analysis.py:219 | A message of one lone surrogate cannot be truncated |
| Utf8Truncation.InlineReadIsExact | src/tools/snapshots.py:376-377 | The truncation step of an inline read fails exactly for a limit below 1, which the tool rejects first (line 283); otherwise its text fits the limit, is flagged exactly when the whole text does not, and truncating the result again changes nothing |
| BackupScan.BackupWalk.ScanOpenDirectory | src/services/backup_inspection_service.py:427-473 | One directory extends the candidates by the matching regular files within what is left of the budget, and reports truncation exactly when more entries exist |
| BackupScan.TruncationWarnedOnce | src/services/backup_inspection_service.py:475-493 | The truncation warning is given exactly when the configuration or the scan was cut off, and then exactly once, although two places may give it: first for the configuration, last for the scan |
| BackupScan.TruncatedMeans | src/services/backup_inspection_service.py:64-69 | Something was cut off exactly when there are more than 8 locations, 20 patterns or 1000 entries in the scannable ones |
| BackupScan.BackupWalk.InspectLocations | src/services/backup_inspection_service.py:73-86 | Over all locations the candidates are the matching regular files among the first 1000 entries of the scannable locations laid end to end; truncation exactly when there are more; the warnings in order |
| BackupScan.EntriesInOrder | src/services/backup_inspection_service.py:73-86 | The entries of a scannable location stand behind those of all locations before it |
| BackupScan.WarningsInOrder | src/services/backup_inspection_service.py:73-86 | A location that is refused or cannot be read to its end has one warning, behind those of the locations before it; any other has none |
| BackupScan.RefusalNamesFirstFailure | src/services/backup_inspection_service.py:103-258 | Which warning a location gets is the first check that it fails, and it is scanned exactly when it fails none |
| BackupScan.UntruncatedFindsEveryBackup | src/services/backup_inspection_service.py:427-458 | With nothing cut off, an entry is recorded if and only if it is a regular file with a matching name, could be examined, and lies in a scannable location |
| BackupScan.MissingIsTrueUnlessHidden | src/services/backup_inspection_service.py:260-279 | When every location was read to its end without a candidate, no location holds a backup if and only if no matching regular file failed its examination |
| BackupScan.MissingMeansNoBackupAnywhere | src/services/backup_inspection_service.py:260-279 | Where no backup failed its examination, a full scan is without candidates if and only if no location holds a backup |
| BackupScan.UnsearchableDirectoryIsMissing | src/services/backup_inspection_service.py:446-456 | A directory that may be listed but not searched: the scan is complete, records nothing and warns of nothing, although the backup exists |
| BackupScan.LatestCandidate | src/services/backup_inspection_service.py:293 | The first candidate with the latest modification time |
| BackupScan.Inspect | src/services/backup_inspection_service.py:43-328 | `missing` exactly when every location was read to its end without a candidate; `current` and `stale` exactly when nothing was cut off, the latest file is at most 300 seconds in the future, and its age in whole seconds, the floor of the real difference of times, is within or beyond the limit; count, completeness flag, warnings and latest file are exact |
| ImageReference.JoinSplit | src/services/project_deployment_service.py:223-237 | Joining the three parts of any reference with ":" and "@" gives the reference back |
| ImageReference.SplitJoinExactly | src/services/project_deployment_service.py:223-237 | Splitting a joined (repository, tag, digest) returns the parts if and only if they are well formed, registries with a port included |
| ImageReference.BarePortIsReadAsTag | src/services/project_deployment_service.py:230-237 | A printed registry with a port and no tag is read back as a repository with a tag |

## Left out

- Line normalization, classification, JSON parsing and fingerprint hashing: a line is an optional event that already carries its fingerprint, identity and source.
- Timestamp parsing: the time filter takes any function from lines to optional instants.
- The noise profiles and incident keywords of the filtered view, and the file-name matcher of the backup scan: any predicate is allowed.
- Session snapshots and their clean-up.
- ORM services, `flock` and Docker: `archive` clears the latest mark, `delete` removes the row, the lock is exclusive.
- Searching with grep and its paging, and the read-chunk selection at `src/services/log_snapshots.py:545-588`, whose claims are immediate.
- Probe blocking, MCP wrappers, authentication, migrations, TLS, Traefik, CrowdSec, scheduler and Compose inspection.
- TopRoutes.AnalyzeProxySources: reads all files before the first scan; the program reads them once per scan, and which sources look like proxies is an input.
- TopRoutes.RankRoutes: routes that tie on count, error flag, status and path may come in any order; the program's order then follows its dictionary.
- ErrorGroups.ErrorGroupAccumulator.ToPayload: the payload lists its distinct values as sets; the program sorts them.
- GroupedAnalysis.GroupSnapshotErrors: which lines raise is an input; the error is one outcome, without its message.
- FilteredView.CreateFilteredView: opens all selected files before it reads their lines; the program opens each as it reads it, with the same result.
- FilteredView.TopReasons: equally frequent reasons may come in any order; the program keeps their first occurrence.
- Base64.DecodeEncode: the decoder refuses anything after padding; where Python's validating decoder differs on malformed padding is not modelled.
- PagedTransfer.CollectDockerSource: the container lookup is an input; which container it picks is not modelled.
- SnapshotModel.ResultsAreWritten: what a source's file and the diagnostics file contain is an input of the run.
- SnapshotModel.RunKeepsSources: a source key is part of a single file name; keys that contain a path separator are not modelled.
- SnapshotRetention.RunsDecideConsistency: project names are single path components and paths are relative to the storage root; an archive name stands for its UTC second.
- SnapshotFailures.AtMostOneLatestAlways: a directory removal is one step; files inside it do not go one by one.
- CollectionLock.EveryCollectionCanFinish: possibility of completion, not fairness of the retry loop.
- BackupScan.BackupWalk.InspectLocations: path checks are the outcomes the operating system reports for each location; log records are not modelled.
